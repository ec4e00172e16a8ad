/**
 The approval-gated host as a state machine on values.

 Each public operation is one function from a host value to a host value and a reply.
 The functions are big steps: the session states an operation passes through on its way
 are not visible here, only the state it comes to rest in. What the environment decides
 (fresh ids, clock readings, what the executor answers, which of several equally old
 approvals a hash map yields first, the order in which `stop` meets the sessions) is part
 of the operation.
 */
module HostModel {
  import opened Prelude
  import opened Errors
  import opened Actions
  import opened Sessions
  import opened Validation

  type ApprovalId = nat

  datatype HostState = Starting | Ready | Running | Stopping | Stopped | Failed

  /**
   The audit history, in typed form and without bound, together with the calls that reach
   the executor (`Executed`). `ApprovalExpired` is the audit record of an eviction; it
   names the request that needed the room.
   */
  datatype Entry =
    | SessionCreated(session: SessionId)
    | CapabilityChecked(session: SessionId, action: Action, granted: seq<string>, valid: bool)
    | PolicyChecked(session: SessionId, action: Action)
    | ActionDenied(session: SessionId, actionId: ActionId)
    | ApprovalRequested(approval: ApprovalId, session: SessionId, action: Action, createdAt: nat)
    | ApprovalGranted(approval: ApprovalId, session: SessionId, action: Action)
    | ApprovalDenied(approval: ApprovalId, session: SessionId, action: Action)
    | ApprovalExpired(approval: ApprovalId, session: SessionId, newcomer: ApprovalId)
    | ActionRequested(session: SessionId, action: Action)
    | Executed(session: SessionId, action: Action)
    | ActionCompleted(session: SessionId, action: Action)
    | ActionFailed(session: SessionId, action: Action)
    | SessionCompleted(session: SessionId)
    | SessionCancelled(session: SessionId)
    | HostFailed

  /** What the host publishes on the event bus. */
  datatype AgentEvent =
    | OnSessionCreated(session: SessionId)
    | OnActionDenied(session: SessionId, actionId: ActionId)
    | OnApprovalRequested(session: SessionId, actionId: ActionId)
    | OnApprovalGranted(session: SessionId, actionId: ActionId)
    | OnApprovalDenied(session: SessionId, actionId: ActionId)
    | OnActionRequested(session: SessionId, actionId: ActionId)
    | OnActionCompleted(session: SessionId, actionId: ActionId)
    | OnActionFailed(session: SessionId, actionId: ActionId)
    | OnSessionCompleted(session: SessionId)
    | OnSessionCancelled(session: SessionId)
    | OnHostFailed

  /** A parked action: the action, its request envelope and when approval was asked for. */
  datatype Pending = Pending(session: SessionId, action: Action, request: RequestId, createdAt: nat)

  /** The journal, the event bus and the host's own count of published events. */
  datatype Book = Book(journal: seq<Entry>, events: seq<AgentEvent>, eventCount: nat)

  datatype Host = Host(
    state: HostState,
    sessions: map<SessionId, Session>,
    pending: map<ApprovalId, Pending>,
    capabilities: seq<string>,
    maxSessions: nat,
    maxPending: nat,
    nextOrdinal: nat,
    book: Book)

  datatype Outcome = Outcome(
    request: RequestId,
    action: Option<ActionId>,
    success: bool,
    error: Option<AgentError>,
    state: SessionState,
    pendingApproval: Option<ApprovalId>)

  /** The executor's answer: an `ExecutionResult` carrying its own success flag, or an error. */
  type ExecAnswer = Result<bool, AgentError>

  function StartHost(capabilities: seq<string>, maxSessions: nat, maxPending: nat): Host {
    Host(HostState.Ready, map[], map[], capabilities, maxSessions, maxPending, 0, Book([], [], 0))
  }

  predicate Accepting(s: HostState) {
    s == HostState.Ready || s == Running
  }

  // ---- journal and event bus ----

  function Mark(b: Book, e: Entry): Book {
    b.(journal := b.journal + [e])
  }

  function Publish(b: Book, ev: AgentEvent): Book {
    b.(events := b.events + [ev], eventCount := b.eventCount + 1)
  }

  /** Most entries are published as well. */
  function Tell(b: Book, e: Entry, ev: AgentEvent): Book {
    Publish(Mark(b, e), ev)
  }

  // ---- operations ----

  function CreateSession(h: Host, sid: SessionId): (Host, Result<SessionId, AgentError>) {
    if !Accepting(h.state) || |h.sessions| >= h.maxSessions then (h, Err(Internal)) else
    (h.(sessions := h.sessions[sid := NewSession(h.nextOrdinal).(state := SessionState.Ready)],
        nextOrdinal := h.nextOrdinal + 1,
        state := Running,
        book := Tell(h.book, SessionCreated(sid), OnSessionCreated(sid))),
     Ok(sid))
  }

  /** The oldest pending approvals; a hash map may yield any of them first. */
  ghost predicate IsOldest(pending: map<ApprovalId, Pending>, id: ApprovalId) {
    && id in pending
    && forall o :: o in pending ==> pending[id].createdAt <= pending[o].createdAt
  }

  predicate MustEvict(h: Host) {
    |h.pending| >= h.maxPending && h.pending != map[]
  }

  function Evict(h: Host, victim: ApprovalId, newcomer: ApprovalId): Host
    requires victim in h.pending
  {
    h.(pending := h.pending - {victim},
       book := Mark(h.book, ApprovalExpired(victim, h.pending[victim].session, newcomer)))
  }

  function Park(h: Host, sid: SessionId, action: Action, id: ApprovalId, rid: RequestId, now: nat, victim: ApprovalId): Host
    requires sid in h.sessions
    requires MustEvict(h) ==> victim in h.pending
  {
    var h1 := h.(sessions := h.sessions[sid := h.sessions[sid].(state := WaitingApproval)],
                 book := Tell(h.book, ApprovalRequested(id, sid, action, now), OnApprovalRequested(sid, action.id)));
    var h2 := if MustEvict(h) then Evict(h1, victim, id) else h1;
    h2.(pending := h2.pending[id := Pending(sid, action, rid, now)])
  }

  /** The session record after its one action has run. */
  function Served(s: Session, action: Action, rid: RequestId, ok: bool): Session {
    s.(state := if ok then Completed else SessionState.Failed,
       requests := s.requests + [rid],
       tokens := s.tokens + {action.id},
       requestCount := s.requestCount + 1,
       actionCount := s.actionCount + 1,
       observationCount := s.observationCount + 1,
       errorCount := if ok then s.errorCount else s.errorCount + 1)
  }

  function ExecuteBook(b: Book, sid: SessionId, action: Action, ok: bool): Book {
    var b1 := Mark(Tell(b, ActionRequested(sid, action), OnActionRequested(sid, action.id)), Executed(sid, action));
    if ok then
      Tell(Tell(b1, ActionCompleted(sid, action), OnActionCompleted(sid, action.id)),
           SessionCompleted(sid), OnSessionCompleted(sid))
    else
      Tell(b1, ActionFailed(sid, action), OnActionFailed(sid, action.id))
  }

  function ExecuteOutcome(action: Action, rid: RequestId, answer: ExecAnswer): Outcome {
    match answer
    case Ok(success) => Outcome(rid, Some(action.id), success, None, Completed, None)
    case Err(e) => Outcome(rid, Some(action.id), false, Some(e), SessionState.Failed, None)
  }

  function Execute(h: Host, sid: SessionId, action: Action, rid: RequestId, answer: ExecAnswer): (Host, Outcome)
    requires sid in h.sessions
  {
    (h.(sessions := h.sessions[sid := Served(h.sessions[sid], action, rid, answer.Ok?)],
        book := ExecuteBook(h.book, sid, action, answer.Ok?)),
     ExecuteOutcome(action, rid, answer))
  }

  function CheckBook(b: Book, sid: SessionId, action: Action, granted: seq<string>): Book {
    Mark(Mark(b, CapabilityChecked(sid, action, granted, IsValid(granted, action))), PolicyChecked(sid, action))
  }

  /**
   Only a session at rest in Ready takes an action. An action that fails validation leaves
   its session in Planning: the move to Failed is not in the lifecycle table.
   */
  function SubmitAction(h: Host, sid: SessionId, action: Action, id: ApprovalId, rid: RequestId, now: nat,
                        victim: ApprovalId, answer: ExecAnswer): (Host, Result<Outcome, AgentError>)
    requires MustEvict(h) ==> victim in h.pending
  {
    if !Accepting(h.state) then (h, Err(Internal))
    else if sid !in h.sessions then (h, Err(NotFound))
    else if h.sessions[sid].state != SessionState.Ready then (h, Err(AgentError.Session))
    else
      var valid := IsValid(h.capabilities, action);
      var h1 := h.(book := CheckBook(h.book, sid, action, h.capabilities));
      if !valid then
        (h1.(sessions := h.sessions[sid := h.sessions[sid].(state := Planning)],
             book := Tell(h1.book, ActionDenied(sid, action.id), OnActionDenied(sid, action.id))),
         Err(Validation))
      else if NeedsConfirmation(action.risk) then
        (Park(h1, sid, action, id, rid, now, victim),
         Ok(Outcome(rid, None, false, Some(ApprovalRequired), WaitingApproval, Some(id))))
      else
        var (h2, out) := Execute(h1, sid, action, rid, answer);
        (h2, Ok(out))
  }

  /** Granting does not look at the host state: only the session decides whether the action runs. */
  function ApproveRequest(h: Host, id: ApprovalId, answer: ExecAnswer): (Host, Result<Option<Outcome>, AgentError>)
    requires id in h.pending ==> h.pending[id].session in h.sessions
  {
    if id !in h.pending then (h, Ok(None)) else
    var p := h.pending[id];
    var h1 := h.(pending := h.pending - {id},
                 book := Tell(h.book, ApprovalGranted(id, p.session, p.action), OnApprovalGranted(p.session, p.action.id)));
    if h.sessions[p.session].state != WaitingApproval then (h1, Err(AgentError.Session)) else
    var (h2, out) := Execute(h1, p.session, p.action, p.request, answer);
    (h2, Ok(Some(out)))
  }

  function Denied(s: Session): Session {
    s.(state := SessionState.Cancelled, errorCount := s.errorCount + 1)
  }

  function DenyRequest(h: Host, id: ApprovalId): (Host, Result<bool, AgentError>)
    requires id in h.pending ==> h.pending[id].session in h.sessions
  {
    if id !in h.pending then (h, Ok(false)) else
    var p := h.pending[id];
    (h.(pending := h.pending - {id},
        sessions := h.sessions[p.session := Denied(h.sessions[p.session])],
        book := Tell(h.book, ApprovalDenied(id, p.session, p.action), OnApprovalDenied(p.session, p.action.id))),
     Ok(true))
  }

  function CancelAction(h: Host, sid: SessionId, actionId: ActionId): (Host, Result<bool, AgentError>) {
    if sid !in h.sessions then (h, Err(NotFound))
    else if actionId !in h.sessions[sid].tokens then (h, Ok(false))
    else
      var s := h.sessions[sid];
      (h.(sessions := h.sessions[sid := s.(tokens := s.tokens - {actionId})],
          book := Tell(h.book, ActionDenied(sid, actionId), OnActionDenied(sid, actionId))),
       Ok(true))
  }

  function CancelSession(h: Host, sid: SessionId): (Host, Result<bool, AgentError>) {
    if sid !in h.sessions then (h, Err(NotFound)) else
    var s := h.sessions[sid].(tokens := {});
    if IsTerminal(s.state) then (h.(sessions := h.sessions[sid := s]), Ok(false)) else
    (h.(sessions := h.sessions[sid := s.(state := SessionState.Cancelled, cancelled := true)],
        book := Tell(h.book, SessionCancelled(sid), OnSessionCancelled(sid))),
     Ok(true))
  }

  function CancelAll(h: Host, order: seq<SessionId>): Host
    decreases |order|
  {
    if order == [] then h else CancelAll(CancelSession(h, order[0]).0, order[1..])
  }

  /** The host can only be stopped while Running (or again once Stopped). */
  function Stop(h: Host, order: seq<SessionId>): (Host, Result<(), AgentError>) {
    if h.state == Stopped then (h, Ok(()))
    else if h.state != Running then (h, Err(Internal))
    else (CancelAll(h, order).(state := Stopped), Ok(()))
  }

  function Fail(h: Host): Host {
    h.(state := HostState.Failed, book := Tell(h.book, HostFailed, OnHostFailed))
  }

  function GrantCapabilities(h: Host, capabilities: seq<string>): Host {
    h.(capabilities := capabilities)
  }

  // ---- runs ----

  datatype Op =
    | OpCreate(session: SessionId)
    | OpSubmit(session: SessionId, action: Action, id: ApprovalId, request: RequestId, now: nat,
               victim: ApprovalId, answer: ExecAnswer)
    | OpApprove(id: ApprovalId, answer: ExecAnswer)
    | OpDeny(id: ApprovalId)
    | OpCancelAction(session: SessionId, actionId: ActionId)
    | OpCancelSession(session: SessionId)
    | OpStop(order: seq<SessionId>)
    | OpFail
    | OpGrant(capabilities: seq<string>)

  /** No approval was ever requested under this id. */
  ghost predicate FreshApproval(journal: seq<Entry>, id: ApprovalId) {
    forall k :: 0 <= k < |journal| && journal[k].ApprovalRequested? ==> journal[k].approval != id
  }

  /** `order` lists every session once. */
  ghost predicate Enumerates(order: seq<SessionId>, sessions: map<SessionId, Session>) {
    && (forall sid :: sid in order <==> sid in sessions)
    && forall i, j :: 0 <= i < j < |order| ==> order[i] != order[j]
  }

  /** What the environment guarantees: generated ids are new, and choices are real ones. */
  ghost predicate Legal(h: Host, op: Op) {
    match op
    case OpCreate(sid) => sid !in h.sessions
    case OpSubmit(_, _, id, _, _, victim, _) =>
      FreshApproval(h.book.journal, id) && (MustEvict(h) ==> IsOldest(h.pending, victim))
    case OpStop(order) => Enumerates(order, h.sessions)
    case _ => true
  }

  ghost predicate Known(h: Host) {
    forall id :: id in h.pending ==> h.pending[id].session in h.sessions
  }

  ghost function Step(h: Host, op: Op): Host
    requires Known(h) && Legal(h, op)
  {
    match op
    case OpCreate(sid) => CreateSession(h, sid).0
    case OpSubmit(sid, action, id, rid, now, victim, answer) =>
      SubmitAction(h, sid, action, id, rid, now, victim, answer).0
    case OpApprove(id, answer) => ApproveRequest(h, id, answer).0
    case OpDeny(id) => DenyRequest(h, id).0
    case OpCancelAction(sid, actionId) => CancelAction(h, sid, actionId).0
    case OpCancelSession(sid) => CancelSession(h, sid).0
    case OpStop(order) => Stop(h, order).0
    case OpFail => Fail(h)
    case OpGrant(capabilities) => GrantCapabilities(h, capabilities)
  }
}
