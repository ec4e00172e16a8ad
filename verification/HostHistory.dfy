/**
 What the journal says about one session: it asks for approval at most once, waits exactly
 while its request is neither granted nor denied, and holds tokens only for what already ran.
 */
module HostHistory {
  import opened Prelude
  import opened Actions
  import opened Sessions
  import opened Validation
  import opened HostModel
  import opened HostLedger
  import opened HostInvariant
  import opened HostRuns

  type Requests = map<ApprovalId, Request>

  /** Session `s` asked for approval `id`. */
  predicate AsksFor(requested: Requests, id: ApprovalId, s: SessionId) {
    id in requested && requested[id].session == s
  }

  ghost predicate Asked(requested: Requests, s: SessionId) {
    exists id :: AsksFor(requested, id, s)
  }

  /** The sessions that asked are known, asked once, and are past Ready and Planning. */
  ghost predicate AskedOnce(sessions: map<SessionId, Session>, requested: Requests) {
    && (forall id, s :: AsksFor(requested, id, s) ==>
          s in sessions && sessions[s].state != SessionState.Ready && sessions[s].state != Planning)
    && (forall a, b, s :: AsksFor(requested, a, s) && AsksFor(requested, b, s) ==> a == b)
  }

  /** A session that waits has asked, and got no answer. */
  ghost predicate WaitsUnanswered(sessions: map<SessionId, Session>, requested: Requests, answered: set<ApprovalId>) {
    && (forall s :: s in sessions && sessions[s].state == WaitingApproval ==> Asked(requested, s))
    && (forall id, s :: AsksFor(requested, id, s) && id in answered && s in sessions ==> sessions[s].state != WaitingApproval)
  }

  ghost predicate Parking(sessions: map<SessionId, Session>, requested: Requests, answered: set<ApprovalId>) {
    AskedOnce(sessions, requested) && WaitsUnanswered(sessions, requested, answered)
  }

  /** Granted and denied are answers; eviction is none. */
  function Answers(l: Ledger): set<ApprovalId> {
    l.granted + l.denied
  }

  ghost predicate ParkingOf(h: Host) {
    Parking(h.sessions, Tally(h.book.journal).requested, Answers(Tally(h.book.journal)))
  }

  // ---- what an operation does to one session ----

  lemma MoveKeeps(sessions: map<SessionId, Session>, requested: Requests, answered: set<ApprovalId>, sid: SessionId, s: Session)
    requires Parking(sessions, requested, answered) && sid in sessions
    requires || s.state == sessions[sid].state || IsTerminal(s.state)
             || (s.state == Planning && sessions[sid].state == SessionState.Ready)
    ensures Parking(sessions[sid := s], requested, answered)
  {
    hide AsksFor, Asked;
  }

  lemma NewSessionKeeps(sessions: map<SessionId, Session>, requested: Requests, answered: set<ApprovalId>, sid: SessionId, s: Session)
    requires Parking(sessions, requested, answered) && sid !in sessions && s.state == SessionState.Ready
    ensures Parking(sessions[sid := s], requested, answered)
  {
    hide AsksFor, Asked;
  }

  lemma AnswerKeeps(sessions: map<SessionId, Session>, requested: Requests, answered: set<ApprovalId>,
                    id: ApprovalId, sid: SessionId, s: Session)
    requires Parking(sessions, requested, answered) && AsksFor(requested, id, sid) && IsTerminal(s.state)
    ensures Parking(sessions[sid := s], requested, answered + {id})
  {
    hide Asked;
  }

  lemma AskKeeps(sessions: map<SessionId, Session>, requested: Requests, answered: set<ApprovalId>,
                 id: ApprovalId, sid: SessionId, s: Session, q: Request)
    requires Parking(sessions, requested, answered)
    requires sid in sessions && sessions[sid].state == SessionState.Ready && s.state == WaitingApproval
    requires id !in requested && id !in answered && q.session == sid
    ensures Parking(sessions[sid := s], requested[id := q], answered)
  {
    var more := requested[id := q];
    forall o, x ensures AsksFor(more, o, x) <==> AsksFor(requested, o, x) || (o == id && x == sid) {}
    forall x | Asked(requested, x) || x == sid ensures Asked(more, x) {
      if x == sid {
        assert AsksFor(more, id, x);
      } else {
        var o :| AsksFor(requested, o, x);
        assert AsksFor(more, o, x);
      }
    }
    hide AsksFor, Asked;
  }

  // ---- the ledger after an operation ----

  predicate SameRequests(l: Ledger, l': Ledger) {
    l'.requested == l.requested && l'.granted == l.granted && l'.denied == l.denied
  }

  lemma TallyMark(b: Book, e: Entry)
    ensures Tally(Mark(b, e).journal) == Post(Tally(b.journal), e)
  {
    Append(b.journal, e);
  }

  lemma TallyTell(b: Book, e: Entry, ev: AgentEvent)
    ensures Tally(Tell(b, e, ev).journal) == Post(Tally(b.journal), e)
  {
    Append(b.journal, e);
  }

  lemma TallyExecute(b: Book, sid: SessionId, action: Action, ok: bool)
    ensures SameRequests(Tally(b.journal), Tally(ExecuteBook(b, sid, action, ok).journal))
  {
    hide Tally, Tell, Mark;
    var b1 := Tell(b, ActionRequested(sid, action), OnActionRequested(sid, action.id));
    TallyTell(b, ActionRequested(sid, action), OnActionRequested(sid, action.id));
    var b2 := Mark(b1, Executed(sid, action));
    TallyMark(b1, Executed(sid, action));
    TallyTell(b2, ActionFailed(sid, action), OnActionFailed(sid, action.id));
    TallyTell(b2, ActionCompleted(sid, action), OnActionCompleted(sid, action.id));
    TallyTell(Tell(b2, ActionCompleted(sid, action), OnActionCompleted(sid, action.id)),
              SessionCompleted(sid), OnSessionCompleted(sid));
  }

  lemma TallyCheck(b: Book, sid: SessionId, action: Action, granted: seq<string>)
    ensures SameRequests(Tally(b.journal), Tally(CheckBook(b, sid, action, granted).journal))
  {
    hide Tally, Mark, IsValid;
    var e := CapabilityChecked(sid, action, granted, IsValid(granted, action));
    TallyMark(b, e);
    TallyMark(Mark(b, e), PolicyChecked(sid, action));
  }

  /** An id that was never requested was never answered either. */
  lemma FreshIsUnanswered(h: Host, id: ApprovalId)
    requires Inv(h) && FreshApproval(h.book.journal, id)
    ensures id !in Tally(h.book.journal).requested && id !in Answers(Tally(h.book.journal))
  {
    FreshIffUnrequested(h.book.journal, id);
    Exclusive(h.book.journal);
  }

  // ---- every operation ----

  lemma SubmitParks(h: Host, sid: SessionId, action: Action, id: ApprovalId, rid: RequestId, now: nat,
                    victim: ApprovalId, answer: ExecAnswer)
    requires Inv(h) && ParkingOf(h) && FreshApproval(h.book.journal, id) && (MustEvict(h) ==> victim in h.pending)
    ensures ParkingOf(SubmitAction(h, sid, action, id, rid, now, victim, answer).0)
  {
    hide Inv, Parking, Tally, Tell, Mark, IsValid, CheckBook, ExecuteBook, FreshApproval, MustEvict, Park;
    if Accepting(h.state) && sid in h.sessions && h.sessions[sid].state == SessionState.Ready {
      var l, b := Tally(h.book.journal), CheckBook(h.book, sid, action, h.capabilities);
      TallyCheck(h.book, sid, action, h.capabilities);
      FreshIsUnanswered(h, id);
      SameCapacity(h, b);
      if !IsValid(h.capabilities, action) {
        TallyTell(b, ActionDenied(sid, action.id), OnActionDenied(sid, action.id));
        MoveKeeps(h.sessions, l.requested, Answers(l), sid, h.sessions[sid].(state := Planning));
      } else if NeedsConfirmation(action.risk) {
        ParkParks(h.(book := b), sid, action, id, rid, now, victim);
      } else {
        TallyExecute(b, sid, action, answer.Ok?);
        MoveKeeps(h.sessions, l.requested, Answers(l), sid, Served(h.sessions[sid], action, rid, answer.Ok?));
      }
    }
  }

  lemma ParkParks(h: Host, sid: SessionId, action: Action, id: ApprovalId, rid: RequestId, now: nat, victim: ApprovalId)
    requires ParkingOf(h) && sid in h.sessions && h.sessions[sid].state == SessionState.Ready
    requires id !in Tally(h.book.journal).requested && id !in Answers(Tally(h.book.journal))
    requires MustEvict(h) ==> victim in h.pending
    ensures ParkingOf(Park(h, sid, action, id, rid, now, victim))
  {
    hide Parking, Tally, Tell, Mark, MustEvict;
    var l, e := Tally(h.book.journal), ApprovalRequested(id, sid, action, now);
    var b := Tell(h.book, e, OnApprovalRequested(sid, action.id));
    TallyTell(h.book, e, OnApprovalRequested(sid, action.id));
    if MustEvict(h) {
      TallyMark(b, ApprovalExpired(victim, h.pending[victim].session, id));
    }
    AskKeeps(h.sessions, l.requested, Answers(l), id, sid, h.sessions[sid].(state := WaitingApproval), Request.Request(sid, action, now));
  }

  lemma PendingAsks(h: Host, id: ApprovalId)
    requires Inv(h) && id in h.pending
    ensures AsksFor(Tally(h.book.journal).requested, id, h.pending[id].session)
    ensures h.pending[id].session in h.sessions
    ensures h.sessions[h.pending[id].session].state in {WaitingApproval, SessionState.Cancelled}
  {
  }

  lemma ApproveParks(h: Host, id: ApprovalId, answer: ExecAnswer)
    requires Inv(h) && Known(h) && ParkingOf(h)
    ensures ParkingOf(ApproveRequest(h, id, answer).0)
  {
    hide Inv, Parking, Tally, Tell, ExecuteBook;
    if id in h.pending {
      var p, l := h.pending[id], Tally(h.book.journal);
      var s, e := h.sessions[p.session], ApprovalGranted(id, p.session, p.action);
      var b := Tell(h.book, e, OnApprovalGranted(p.session, p.action.id));
      PendingAsks(h, id);
      TallyTell(h.book, e, OnApprovalGranted(p.session, p.action.id));
      TallyExecute(b, p.session, p.action, answer.Ok?);
      assert Answers(Post(l, e)) == Answers(l) + {id};
      if s.state == WaitingApproval {
        AnswerKeeps(h.sessions, l.requested, Answers(l), id, p.session, Served(s, p.action, p.request, answer.Ok?));
      } else {
        AnswerKeeps(h.sessions, l.requested, Answers(l), id, p.session, s);
        assert h.sessions[p.session := s] == h.sessions;
      }
    }
  }

  lemma DenyParks(h: Host, id: ApprovalId)
    requires Inv(h) && Known(h) && ParkingOf(h)
    ensures ParkingOf(DenyRequest(h, id).0)
  {
    hide Inv, Parking, Tally, Tell;
    if id in h.pending {
      var p, l := h.pending[id], Tally(h.book.journal);
      var e := ApprovalDenied(id, p.session, p.action);
      PendingAsks(h, id);
      TallyTell(h.book, e, OnApprovalDenied(p.session, p.action.id));
      assert Answers(Post(l, e)) == Answers(l) + {id};
      AnswerKeeps(h.sessions, l.requested, Answers(l), id, p.session, Denied(h.sessions[p.session]));
    }
  }

  lemma CreateParks(h: Host, sid: SessionId)
    requires ParkingOf(h) && sid !in h.sessions
    ensures ParkingOf(CreateSession(h, sid).0)
  {
    hide Parking, Tally, Tell;
    var l := Tally(h.book.journal);
    TallyTell(h.book, SessionCreated(sid), OnSessionCreated(sid));
    NewSessionKeeps(h.sessions, l.requested, Answers(l), sid, NewSession(h.nextOrdinal).(state := SessionState.Ready));
  }

  lemma CancelActionParks(h: Host, sid: SessionId, actionId: ActionId)
    requires ParkingOf(h)
    ensures ParkingOf(CancelAction(h, sid, actionId).0)
  {
    hide Parking, Tally, Tell;
    if sid in h.sessions {
      var l, s := Tally(h.book.journal), h.sessions[sid];
      TallyTell(h.book, ActionDenied(sid, actionId), OnActionDenied(sid, actionId));
      MoveKeeps(h.sessions, l.requested, Answers(l), sid, s.(tokens := s.tokens - {actionId}));
    }
  }

  lemma CancelSessionParks(h: Host, sid: SessionId)
    requires ParkingOf(h)
    ensures ParkingOf(CancelSession(h, sid).0)
  {
    hide Parking, Tally, Tell;
    if sid in h.sessions {
      var l, s := Tally(h.book.journal), h.sessions[sid].(tokens := {});
      TallyTell(h.book, SessionCancelled(sid), OnSessionCancelled(sid));
      MoveKeeps(h.sessions, l.requested, Answers(l), sid, s);
      MoveKeeps(h.sessions, l.requested, Answers(l), sid, s.(state := SessionState.Cancelled, cancelled := true));
    }
  }

  lemma {:induction false} CancelAllParks(h: Host, order: seq<SessionId>)
    requires ParkingOf(h)
    ensures ParkingOf(CancelAll(h, order))
    decreases |order|
  {
    hide ParkingOf, CancelSession;
    if order != [] {
      CancelSessionParks(h, order[0]);
      CancelAllParks(CancelSession(h, order[0]).0, order[1..]);
    }
  }

  lemma RestParks(h: Host, order: seq<SessionId>, capabilities: seq<string>)
    requires ParkingOf(h)
    ensures ParkingOf(Stop(h, order).0) && ParkingOf(Fail(h)) && ParkingOf(GrantCapabilities(h, capabilities))
  {
    hide Parking, Tally, Tell, CancelAll;
    CancelAllParks(h, order);
    TallyTell(h.book, HostFailed, OnHostFailed);
  }

  lemma StepParks(h: Host, op: Op)
    requires Inv(h) && Known(h) && Legal(h, op) && ParkingOf(h)
    ensures ParkingOf(Step(h, op))
  {
    hide Inv, ParkingOf, IsOldest, FreshApproval, Enumerates, MustEvict;
    match op
    case OpCreate(sid) => CreateParks(h, sid);
    case OpSubmit(sid, action, id, rid, now, victim, answer) =>
      OldestIsPending(h, victim);
      SubmitParks(h, sid, action, id, rid, now, victim, answer);
    case OpApprove(id, answer) => ApproveParks(h, id, answer);
    case OpDeny(id) => DenyParks(h, id);
    case OpCancelAction(sid, actionId) => CancelActionParks(h, sid, actionId);
    case OpCancelSession(sid) => CancelSessionParks(h, sid);
    case OpStop(order) => RestParks(h, order, []);
    case OpFail => RestParks(h, [], []);
    case OpGrant(capabilities) => RestParks(h, [], capabilities);
  }

  lemma {:induction false} RunParks(h: Host, ops: seq<Op>)
    requires Inv(h) && LegalRun(h, ops) && ParkingOf(h)
    ensures ParkingOf(Run(h, ops))
    decreases |ops|
  {
    hide Inv, Step, Legal, ParkingOf;
    if ops != [] {
      StepKeeps(h, ops[0]);
      StepParks(h, ops[0]);
      RunParks(Step(h, ops[0]), ops[1..]);
    }
  }

  /** In every reachable host each session asked at most once, and waits only while unanswered. */
  lemma ReachableParks(h: Host)
    requires Reachable(h)
    ensures ParkingOf(h)
  {
    hide Inv, Run, LegalRun;
    var capabilities, maxSessions, maxPending, ops :| Reached(h, capabilities, maxSessions, maxPending, ops);
    StartInv(capabilities, maxSessions, maxPending);
    assert ParkingOf(StartHost(capabilities, maxSessions, maxPending));
    RunParks(StartHost(capabilities, maxSessions, maxPending), ops);
  }

  // ---- waiting in vain ----

  /** Some approval of session `s` was evicted. */
  ghost predicate WasEvicted(j: seq<Entry>, s: SessionId) {
    exists k :: 0 <= k < |j| && j[k].ApprovalExpired? && j[k].session == s
  }

  lemma {:induction false} ExpiredAt(j: seq<Entry>, id: ApprovalId) returns (k: nat)
    requires id in Tally(j).expired
    ensures k < |j| && j[k].ApprovalExpired? && j[k].approval == id
  {
    var n := |j| - 1;
    if j[n].ApprovalExpired? && j[n].approval == id {
      k := n;
    } else {
      k := ExpiredAt(j[..n], id);
    }
  }

  /** What was requested stays requested as it was. */
  lemma {:induction false} RequestStays(j: seq<Entry>, i: nat, id: ApprovalId)
    requires Sound(j) && i <= |j| && id in Tally(j[..i]).requested
    ensures id in Tally(j).requested && Tally(j).requested[id] == Tally(j[..i]).requested[id]
  {
    hide IsValid, Consent, OldestOpen;
    var n := |j| - 1;
    if i <= n {
      assert j[..n][..i] == j[..i];
      RequestStays(j[..n], i, id);
    } else {
      assert j[..i] == j;
    }
  }

  /** An evicted approval is on the ledger as expired, under the session the eviction names. */
  lemma EvictedOnLedger(j: seq<Entry>, k: nat)
    requires Sound(j) && k < |j| && j[k].ApprovalExpired?
    ensures j[k].approval in Tally(j).expired && AsksFor(Tally(j).requested, j[k].approval, j[k].session)
  {
    hide Tally;
    SoundPrefix(j, k);
    Recorded(j, k);
    RequestStays(j, k, j[k].approval);
  }

  /**
   In every reachable host a session waits without a pending approval that could release it
   exactly when its approval was evicted.
   */
  lemma WaitsInVainIff(h: Host, s: SessionId)
    requires Reachable(h) && s in h.sessions && h.sessions[s].state == WaitingApproval
    ensures (forall id :: id in h.pending ==> h.pending[id].session != s) <==> WasEvicted(h.book.journal, s)
  {
    hide Inv, Reachable, Tally, AskedOnce;
    ReachableInv(h);
    ReachableParks(h);
    var j, l := h.book.journal, Tally(h.book.journal);
    SoundOf(h);
    var id :| AsksFor(l.requested, id, s);
    WaitingIsOpenOrExpired(h, id, s);
    if id in l.expired {
      var k := ExpiredAt(j, id);
      EvictedOnLedger(j, k);
      assert WasEvicted(j, s);
    }
    if WasEvicted(j, s) {
      var k :| 0 <= k < |j| && j[k].ApprovalExpired? && j[k].session == s;
      EvictedOnLedger(j, k);
      SameAsk(h, id, j[k].approval, s);
      forall o | o in h.pending ensures h.pending[o].session != s {
        PendingAsks(h, o);
        if h.pending[o].session == s { SameAsk(h, id, o, s); PendingIsOpen(h, o); }
      }
    }
  }

  lemma SoundOf(h: Host)
    requires Inv(h)
    ensures Sound(h.book.journal)
  {
  }

  lemma SameAsk(h: Host, a: ApprovalId, b: ApprovalId, s: SessionId)
    requires ParkingOf(h)
    requires AsksFor(Tally(h.book.journal).requested, a, s) && AsksFor(Tally(h.book.journal).requested, b, s)
    ensures a == b
  {
    hide AsksFor;
  }

  lemma PendingIsOpen(h: Host, id: ApprovalId)
    requires Inv(h)
    ensures id in h.pending <==> id in Open(Tally(h.book.journal))
  {
  }

  /** The one approval a waiting session asked for is pending or was evicted, not both. */
  lemma WaitingIsOpenOrExpired(h: Host, id: ApprovalId, s: SessionId)
    requires Inv(h) && ParkingOf(h) && s in h.sessions && h.sessions[s].state == WaitingApproval
    requires AsksFor(Tally(h.book.journal).requested, id, s)
    ensures id in h.pending <==> id !in Tally(h.book.journal).expired
    ensures id in h.pending ==> h.pending[id].session == s
  {
    hide Tally, AskedOnce;
    assert id !in Answers(Tally(h.book.journal));
  }

  // ---- cancelling an action ----

  /** Action `actionId` of session `s` reached the executor. */
  ghost predicate Ran(j: seq<Entry>, s: SessionId, actionId: ActionId) {
    exists k :: 0 <= k < |j| && j[k].Executed? && j[k].session == s && j[k].action.id == actionId
  }

  /** A session holds tokens only for actions of its own that ran. */
  ghost predicate TokensRan(sessions: map<SessionId, Session>, j: seq<Entry>) {
    forall s, t :: s in sessions && t in sessions[s].tokens ==> Ran(j, s, t)
  }

  lemma RanStays(j: seq<Entry>, j': seq<Entry>, s: SessionId, actionId: ActionId)
    requires j <= j' && Ran(j, s, actionId)
    ensures Ran(j', s, actionId)
  {
    var k :| 0 <= k < |j| && j[k].Executed? && j[k].session == s && j[k].action.id == actionId;
    assert j'[k] == j[k];
  }

  /** No session of `h'` holds a token that it did not hold in `h`, except one for what has just run. */
  ghost predicate NewTokensRan(h: Host, h': Host) {
    forall s, t :: s in h'.sessions && t in h'.sessions[s].tokens ==>
      (s in h.sessions && t in h.sessions[s].tokens) || Ran(h'.book.journal, s, t)
  }

  lemma ExecuteTokens(h: Host, sid: SessionId, action: Action, rid: RequestId, answer: ExecAnswer)
    requires sid in h.sessions
    ensures NewTokensRan(h, Execute(h, sid, action, rid, answer).0)
  {
    var j := Execute(h, sid, action, rid, answer).0.book.journal;
    assert j[|h.book.journal| + 1] == Executed(sid, action);
    assert Ran(j, sid, action.id);
    hide Ran, ExecuteBook;
  }

  lemma {:induction false} CancelAllTokens(h: Host, order: seq<SessionId>)
    ensures NewTokensRan(h, CancelAll(h, order))
    ensures forall s, t :: s in CancelAll(h, order).sessions && t in CancelAll(h, order).sessions[s].tokens ==>
              s in h.sessions && t in h.sessions[s].tokens
    decreases |order|
  {
    hide Ran, Tell;
    if order != [] {
      CancelAllTokens(CancelSession(h, order[0]).0, order[1..]);
    }
  }

  lemma SubmitTokens(h: Host, sid: SessionId, action: Action, id: ApprovalId, rid: RequestId, now: nat,
                     victim: ApprovalId, answer: ExecAnswer)
    requires MustEvict(h) ==> victim in h.pending
    ensures NewTokensRan(h, SubmitAction(h, sid, action, id, rid, now, victim, answer).0)
  {
    hide Ran, IsValid, MustEvict, Tell, Mark, Execute, CheckBook;
    if sid in h.sessions {
      ExecuteTokens(h.(book := CheckBook(h.book, sid, action, h.capabilities)), sid, action, rid, answer);
    }
  }

  lemma ApproveTokens(h: Host, id: ApprovalId, answer: ExecAnswer)
    requires Known(h)
    ensures NewTokensRan(h, ApproveRequest(h, id, answer).0)
  {
    hide Ran, Tell, Execute;
    if id in h.pending {
      var p := h.pending[id];
      var b := Tell(h.book, ApprovalGranted(id, p.session, p.action), OnApprovalGranted(p.session, p.action.id));
      ExecuteTokens(h.(pending := h.pending - {id}, book := b), p.session, p.action, p.request, answer);
    }
  }

  lemma StepTokens(h: Host, op: Op)
    requires Known(h) && Legal(h, op)
    ensures NewTokensRan(h, Step(h, op))
  {
    hide Ran, Tell, Mark, IsOldest, FreshApproval, Enumerates, MustEvict, SubmitAction, ApproveRequest, CancelAll;
    match op
    case OpSubmit(sid, action, id, rid, now, victim, answer) =>
      OldestIsPending(h, victim);
      SubmitTokens(h, sid, action, id, rid, now, victim, answer);
    case OpApprove(id, answer) => ApproveTokens(h, id, answer);
    case OpStop(order) => CancelAllTokens(h, order);
    case _ =>
  }

  lemma {:induction false} RunTokens(h: Host, ops: seq<Op>)
    requires Inv(h) && LegalRun(h, ops) && TokensRan(h.sessions, h.book.journal)
    ensures TokensRan(Run(h, ops).sessions, Run(h, ops).book.journal)
    decreases |ops|
  {
    hide Inv, Step, Legal, Ran;
    if ops != [] {
      var h1 := Step(h, ops[0]);
      StepKeeps(h, ops[0]);
      StepExtends(h, ops[0]);
      StepTokens(h, ops[0]);
      forall s, t | s in h1.sessions && t in h1.sessions[s].tokens ensures Ran(h1.book.journal, s, t) {
        if s in h.sessions && t in h.sessions[s].tokens { RanStays(h.book.journal, h1.book.journal, s, t); }
      }
      RunTokens(h1, ops[1..]);
    }
  }

  /**
   Cancelling an action never stops one: in every reachable host it succeeds only for an
   action that has already run to its end, and it changes no session's state, no approval and
   not the host's.
   */
  lemma CancelActionTooLate(h: Host, sid: SessionId, actionId: ActionId)
    requires Reachable(h) && CancelAction(h, sid, actionId).1 == Ok(true)
    ensures Ran(h.book.journal, sid, actionId) && sid in h.sessions && HasRun(h.sessions[sid].state)
    ensures var h' := CancelAction(h, sid, actionId).0;
            && h'.pending == h.pending && h'.state == h.state && h'.sessions.Keys == h.sessions.Keys
            && forall s :: s in h.sessions ==> h'.sessions[s].state == h.sessions[s].state
  {
    hide Inv, Run, LegalRun, Ran, Tell;
    var capabilities, maxSessions, maxPending, ops :| Reached(h, capabilities, maxSessions, maxPending, ops);
    StartInv(capabilities, maxSessions, maxPending);
    RunTokens(StartHost(capabilities, maxSessions, maxPending), ops);
    RunKeeps(StartHost(capabilities, maxSessions, maxPending), ops);
    TokensMeanRun(h, sid);
  }

  lemma TokensMeanRun(h: Host, sid: SessionId)
    requires Inv(h) && sid in h.sessions
    ensures h.sessions[sid].tokens != {} ==> HasRun(h.sessions[sid].state)
  {
  }

  // ---- room for sessions ----

  /** No session ever makes room for another: in every reachable host creation fails once the cap is reached, however many have ended. */
  lemma CreateErrsIff(h: Host, sid: SessionId)
    requires Reachable(h) && sid !in h.sessions
    ensures CreateSession(h, sid).1.Err? <==> !Accepting(h.state) || Creations(h.book.journal) == h.maxSessions
  {
    hide Reachable, Count;
    OneShotSessions(h);
  }
}
