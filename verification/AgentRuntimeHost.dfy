/**
 The host as the object the daemon holds: its methods update the fields step by step, moving
 a session through every intermediate state, and are proved to land where the state machine
 of `HostModel` says.
 */
module AgentRuntime {
  import opened Prelude
  import opened Errors
  import opened Actions
  import opened Sessions
  import opened Validation
  import opened HostModel
  import opened HostInvariant

  /** One move of a session: refused when ended, cancelled or not in the lifecycle table. */
  function Advance(s: Session, next: SessionState): Result<Session, AgentError> {
    if IsTerminal(s.state) then Err(AgentError.Session)
    else if s.cancelled then Err(Cancellation)
    else if s.state == next then Ok(s)
    else if CanTransition(s.state, next) then Ok(s.(state := next))
    else Err(AgentError.Session)
  }

  /** Which moves fail, and how; a move that succeeds changes the state and nothing else. */
  lemma AdvanceMeans(s: Session, next: SessionState)
    ensures var r := Advance(s, next);
            var ended := s.state == Completed || s.state == SessionState.Failed || s.state == SessionState.Cancelled;
            && (r == Err(Cancellation) <==> !ended && s.cancelled)
            && (r.Err? && r.error != Cancellation ==> r.error == AgentError.Session)
            && (r.Ok? <==> !ended && !s.cancelled && (s.state == next || CanTransition(s.state, next)))
            && (r.Ok? ==> r.value.state == next && r.value == s.(state := next))
  {
  }

  class AgentRuntimeHost {
    const maxSessions: nat
    const maxPending: nat
    var state: HostState
    var sessions: map<SessionId, Session>
    var pending: map<ApprovalId, Pending>
    var capabilities: seq<string>
    var nextOrdinal: nat
    var events: seq<AgentEvent>
    var publishedEventCount: nat
    ghost var journal: seq<Entry>

    ghost function Log(): Book
      reads this`journal, this`events, this`publishedEventCount
    {
      Book(journal, events, publishedEventCount)
    }

    ghost function Value(): Host
      reads this
    {
      Host(state, sessions, pending, capabilities, maxSessions, maxPending, nextOrdinal, Log())
    }

    constructor (capabilities: seq<string>, maxSessions: nat, maxPending: nat)
      ensures Value() == StartHost(capabilities, maxSessions, maxPending) && Inv(Value())
    {
      this.maxSessions, this.maxPending := maxSessions, maxPending;
      state := Starting;
      sessions, pending := map[], map[];
      this.capabilities := capabilities;
      nextOrdinal, events, publishedEventCount, journal := 0, [], 0, [];
      new;
      var moved := TransitionState(HostState.Ready);
      StartInv(capabilities, maxSessions, maxPending);
    }

    method TransitionState(next: HostState) returns (r: Result<(), AgentError>)
      modifies this`state
      ensures r.Ok? <==> (old(state), next) in {
                (Starting, HostState.Ready), (HostState.Ready, Running), (Running, Stopping), (Running, HostState.Failed),
                (HostState.Ready, HostState.Failed), (Starting, HostState.Failed), (Stopping, Stopped)}
      ensures r.Err? ==> r.error == Internal
      ensures state == if r.Ok? then next else old(state)
    {
      var allowed := match (state, next)
        case (Starting, Ready) => true
        case (Ready, Running) => true
        case (Running, Stopping) => true
        case (Running, Failed) => true
        case (Ready, Failed) => true
        case (Starting, Failed) => true
        case (Stopping, Stopped) => true
        case _ => false;
      if !allowed { return Err(Internal); }
      state := next;
      r := Ok(());
    }

    ghost method Record(e: Entry)
      modifies this`journal
      ensures Log() == Mark(old(Log()), e)
    {
      journal := journal + [e];
    }

    method PublishEvent(ev: AgentEvent)
      modifies this`events, this`publishedEventCount
      ensures Log() == Publish(old(Log()), ev)
    {
      events := events + [ev];
      publishedEventCount := publishedEventCount + 1;
    }

    /** An audit record together with the event that announces it. */
    method Announce(ghost e: Entry, ev: AgentEvent)
      modifies this`journal, this`events, this`publishedEventCount
      ensures Log() == Tell(old(Log()), e, ev)
    {
      Record(e);
      PublishEvent(ev);
    }

    method AdvanceSession(sid: SessionId, next: SessionState) returns (r: Result<(), AgentError>)
      modifies this`sessions
      ensures sid !in old(sessions) ==> r == Err(NotFound) && sessions == old(sessions)
      ensures sid in old(sessions) ==>
                match Advance(old(sessions)[sid], next)
                case Ok(s) => r == Ok(()) && sessions == old(sessions)[sid := s]
                case Err(e) => r == Err(e) && sessions == old(sessions)
    {
      if sid !in sessions { return Err(NotFound); }
      var s := sessions[sid];
      if IsTerminal(s.state) { return Err(AgentError.Session); }
      if s.cancelled { return Err(Cancellation); }
      if s.state == next {
        assert sessions == sessions[sid := s];
        return Ok(());
      }
      if !CanTransition(s.state, next) { return Err(AgentError.Session); }
      sessions := sessions[sid := s.(state := next)];
      r := Ok(());
    }

    method AdvanceSessionIfNot(sid: SessionId, next: SessionState) returns (r: Result<(), AgentError>)
      modifies this`sessions
      ensures sid !in old(sessions) ==> r == Err(NotFound) && sessions == old(sessions)
      ensures sid in old(sessions) ==>
                var s := old(sessions)[sid];
                if s.state == next || IsTerminal(s.state) then r == Ok(()) && sessions == old(sessions)
                else match Advance(s, next)
                     case Ok(s') => r == Ok(()) && sessions == old(sessions)[sid := s']
                     case Err(e) => r == Err(e) && sessions == old(sessions)
    {
      if sid !in sessions { return Err(NotFound); }
      if sessions[sid].state == next || IsTerminal(sessions[sid].state) { return Ok(()); }
      r := AdvanceSession(sid, next);
    }

    method CreateSession(sid: SessionId) returns (r: Result<SessionId, AgentError>)
      requires Inv(Value()) && sid !in sessions
      modifies this
      ensures (Value(), r) == HostModel.CreateSession(old(Value()), sid)
      ensures Inv(Value())
    {
      hide Inv, Tell;
      ghost var h := Value();
      CreateKeeps(h, sid);
      if !Accepting(state) || |sessions| >= maxSessions { return Err(Internal); }
      var s := NewSession(nextOrdinal);
      nextOrdinal := nextOrdinal + 1;
      s := s.(state := SessionState.Ready);
      Announce(SessionCreated(sid), OnSessionCreated(sid));
      sessions := sessions[sid := s];
      if state == HostState.Ready {
        var moved := TransitionState(Running);
      }
      r := Ok(sid);
      assert Value() == HostModel.CreateSession(h, sid).0;
    }

    /** Drops the oldest pending approval; ties are broken arbitrarily. */
    method EvictOldestPendingApproval(ghost newcomer: ApprovalId) returns (ghost victim: ApprovalId)
      modifies this`pending, this`journal
      ensures old(pending) == map[] ==> pending == old(pending) && Log() == old(Log())
      ensures old(pending) != map[] ==>
                && IsOldest(old(pending), victim)
                && pending == old(pending) - {victim}
                && Log() == Mark(old(Log()), ApprovalExpired(victim, old(pending)[victim].session, newcomer))
    {
      victim := 0;
      if pending != map[] {
        OldestExists(pending);
        var oldest :| oldest in pending && forall o :: o in pending ==> pending[oldest].createdAt <= pending[o].createdAt;
        victim := oldest;
        Record(ApprovalExpired(oldest, pending[oldest].session, newcomer));
        pending := pending - {oldest};
      }
    }

    /** Marks a running action on its session so that it can be cancelled. */
    method RecordAction(sid: SessionId, actionId: ActionId)
      modifies this`sessions
      ensures sid !in old(sessions) ==> sessions == old(sessions)
      ensures sid in old(sessions) ==>
              var s := old(sessions)[sid];
              sessions == old(sessions)[sid := s.(tokens := s.tokens + {actionId}, actionCount := s.actionCount + 1)]
    {
      if sid in sessions {
        var s := sessions[sid];
        sessions := sessions[sid := s.(tokens := s.tokens + {actionId}, actionCount := s.actionCount + 1)];
      }
    }

    method RecordRequest(sid: SessionId, rid: RequestId)
      modifies this`sessions
      ensures sid !in old(sessions) ==> sessions == old(sessions)
      ensures sid in old(sessions) ==>
              var s := old(sessions)[sid];
              sessions == old(sessions)[sid := s.(requests := s.requests + [rid], requestCount := s.requestCount + 1,
                                                  observationCount := s.observationCount + 1)]
    {
      if sid in sessions {
        var s := sessions[sid];
        sessions := sessions[sid := s.(requests := s.requests + [rid], requestCount := s.requestCount + 1,
                                       observationCount := s.observationCount + 1)];
      }
    }

    method RecordSessionError(sid: SessionId)
      modifies this`sessions
      ensures sid !in old(sessions) ==> sessions == old(sessions)
      ensures sid in old(sessions) ==>
              var s := old(sessions)[sid];
              sessions == old(sessions)[sid := s.(errorCount := s.errorCount + 1)]
    {
      if sid in sessions {
        sessions := sessions[sid := sessions[sid].(errorCount := sessions[sid].errorCount + 1)];
      }
    }

    method CompleteSession(sid: SessionId) returns (r: Result<(), AgentError>)
      modifies this`sessions, this`journal, this`events, this`publishedEventCount
      ensures r == if sid !in old(sessions) then Err(NotFound)
                   else if old(sessions)[sid].state != Observing then Err(AgentError.Session)
                   else Ok(())
      ensures r.Ok? ==>
                && sessions == old(sessions)[sid := old(sessions)[sid].(state := Completed)]
                && Log() == Tell(old(Log()), SessionCompleted(sid), OnSessionCompleted(sid))
      ensures r.Err? ==> sessions == old(sessions) && Log() == old(Log())
    {
      if sid !in sessions { return Err(NotFound); }
      if !CanTransition(sessions[sid].state, Completed) { return Err(AgentError.Session); }
      sessions := sessions[sid := sessions[sid].(state := Completed)];
      Announce(SessionCompleted(sid), OnSessionCompleted(sid));
      r := Ok(());
    }

    method ExecuteValidatedAction(sid: SessionId, action: Action, rid: RequestId, answer: ExecAnswer)
      returns (r: Result<Outcome, AgentError>)
      modifies this`sessions, this`journal, this`events, this`publishedEventCount
      ensures sid !in old(sessions) ==> r == Err(NotFound) && sessions == old(sessions) && Log() == old(Log())
      ensures sid in old(sessions) ==>
                match Advance(old(sessions)[sid], Executing)
                case Ok(_) =>
                  && sessions == old(sessions)[sid := Served(old(sessions)[sid], action, rid, answer.Ok?)]
                  && Log() == ExecuteBook(old(Log()), sid, action, answer.Ok?)
                  && r == Ok(ExecuteOutcome(action, rid, answer))
                case Err(e) => r == Err(e) && sessions == old(sessions) && Log() == old(Log())
    {
      hide Tell, Mark, Served;
      var moved := AdvanceSession(sid, Executing);
      if moved.Err? { return Err(moved.error); }
      BeginAction(sid, action);
      r := Settle(sid, action, rid, answer);
      RecordRequest(sid, rid);
      ServedInSteps(old(sessions), sid, action, rid, answer.Ok?);
    }

    /** What comes before the executor's answer: the request is announced, the action tracked and the executor called. */
    method BeginAction(sid: SessionId, action: Action)
      requires sid in sessions
      modifies this`sessions, this`journal, this`events, this`publishedEventCount
      ensures var s := old(sessions)[sid];
              sessions == old(sessions)[sid := s.(tokens := s.tokens + {action.id}, actionCount := s.actionCount + 1)]
      ensures Log() == Mark(Tell(old(Log()), ActionRequested(sid, action), OnActionRequested(sid, action.id)), Executed(sid, action))
    {
      hide Tell, Mark;
      Announce(ActionRequested(sid, action), OnActionRequested(sid, action.id));
      RecordAction(sid, action.id);
      Record(Executed(sid, action));
    }

    /** What follows the executor's answer. */
    method Settle(sid: SessionId, action: Action, rid: RequestId, answer: ExecAnswer)
      returns (r: Result<Outcome, AgentError>)
      requires sid in sessions && sessions[sid].state == Executing && !sessions[sid].cancelled
      modifies this`sessions, this`journal, this`events, this`publishedEventCount
      ensures var s := old(sessions)[sid];
              sessions == old(sessions)[sid := if answer.Ok? then s.(state := Completed)
                                               else s.(state := SessionState.Failed, errorCount := s.errorCount + 1)]
      ensures answer.Ok? ==>
                Log() == Tell(Tell(old(Log()), ActionCompleted(sid, action), OnActionCompleted(sid, action.id)),
                              SessionCompleted(sid), OnSessionCompleted(sid))
      ensures answer.Err? ==> Log() == Tell(old(Log()), ActionFailed(sid, action), OnActionFailed(sid, action.id))
      ensures r == Ok(ExecuteOutcome(action, rid, answer))
    {
      hide Tell, Mark;
      match answer {
        case Ok(success) =>
          Announce(ActionCompleted(sid, action), OnActionCompleted(sid, action.id));
          var observed := AdvanceSession(sid, Observing);
          var completed := CompleteSession(sid);
          r := Ok(Outcome(rid, Some(action.id), success, None, sessions[sid].state, None));
        case Err(e) =>
          Announce(ActionFailed(sid, action), OnActionFailed(sid, action.id));
          var failed := AdvanceSession(sid, SessionState.Failed);
          RecordSessionError(sid);
          r := Ok(Outcome(rid, Some(action.id), false, Some(e), sessions[sid].state, None));
      }
    }

    /** The moves every submission starts with; they succeed exactly for a session at rest in Ready. */
    method EnterPlanning(sid: SessionId) returns (r: Result<(), AgentError>)
      requires sid in sessions ==> SessionOk(sessions[sid])
      modifies this`sessions
      ensures r == if sid !in old(sessions) then Err(NotFound)
                   else if old(sessions)[sid].state != SessionState.Ready then Err(AgentError.Session)
                   else Ok(())
      ensures sessions == if r.Ok? then old(sessions)[sid := old(sessions)[sid].(state := Planning)] else old(sessions)
      ensures r.Ok? ==> !old(sessions)[sid].cancelled
    {
      r := AdvanceSessionIfNot(sid, SessionState.Ready);
      if r.Err? { return; }
      r := AdvanceSession(sid, Thinking);
      if r.Err? { return; }
      r := AdvanceSession(sid, Planning);
    }

    method ParkAction(sid: SessionId, action: Action, id: ApprovalId, rid: RequestId, now: nat)
      returns (ghost victim: ApprovalId)
      requires sid in sessions && sessions[sid].state == Planning && !sessions[sid].cancelled
      modifies this`sessions, this`pending, this`journal, this`events, this`publishedEventCount
      ensures MustEvict(old(Value())) ==> IsOldest(old(pending), victim)
      ensures Value() == Park(old(Value()), sid, action, id, rid, now, victim)
    {
      hide Tell, Mark, IsOldest;
      var waiting := AdvanceSession(sid, WaitingApproval);
      Announce(ApprovalRequested(id, sid, action, now), OnApprovalRequested(sid, action.id));
      victim := 0;
      if |pending| >= maxPending {
        victim := EvictOldestPendingApproval(id);
      }
      pending := pending[id := Pending(sid, action, rid, now)];
      OldestIsIn(old(pending), victim);
    }

    /**
     `victim` names the approval evicted, if one was. The session passes through Thinking and
     Planning before it parks, runs or is refused.
     */
    method SubmitAction(sid: SessionId, action: Action, id: ApprovalId, rid: RequestId, now: nat, answer: ExecAnswer)
      returns (r: Result<Outcome, AgentError>, ghost victim: ApprovalId)
      requires Inv(Value()) && FreshApproval(journal, id)
      modifies this
      ensures Legal(old(Value()), OpSubmit(sid, action, id, rid, now, victim, answer))
      ensures (Value(), r) == HostModel.SubmitAction(old(Value()), sid, action, id, rid, now, victim, answer)
      ensures Inv(Value())
    {
      hide Inv, IsOldest, FreshApproval, SessionOk, HostModel.SubmitAction;
      ghost var h := Value();
      SessionOkAt(h, sid);
      r, victim := Submit(sid, action, id, rid, now, answer);
      SubmitKeeps(h, sid, action, id, rid, now, victim, answer);
    }

    method Submit(sid: SessionId, action: Action, id: ApprovalId, rid: RequestId, now: nat, answer: ExecAnswer)
      returns (r: Result<Outcome, AgentError>, ghost victim: ApprovalId)
      requires sid in sessions ==> SessionOk(sessions[sid])
      modifies this`sessions, this`pending, this`journal, this`events, this`publishedEventCount
      ensures MustEvict(old(Value())) ==> IsOldest(old(pending), victim) && victim in old(pending)
      ensures (Value(), r) == HostModel.SubmitAction(old(Value()), sid, action, id, rid, now, victim, answer)
    {
      hide Tell, Mark, IsOldest, IsValid, SessionOk, HostModel.SubmitAction, Park, Execute, Dispatched, MustEvict;
      ghost var h := Value();
      victim := ChooseVictim(pending);
      OldestIsIn(pending, victim);
      EvictNonEmpty(h);
      SubmitCases(h, sid, action, id, rid, now, victim, answer);
      if !Accepting(state) { return Err(Internal), victim; }
      var entered := EnterPlanning(sid);
      if entered.Err? { return Err(entered.error), victim; }
      var result := Validate(capabilities, action);
      Record(CapabilityChecked(sid, action, capabilities, result.valid));
      Record(PolicyChecked(sid, action));
      if !result.valid {
        RefuseAction(sid, action.id);
        return Err(Validation), victim;
      }
      assert Value() == Planned(h, sid, action);
      SameRoom(h, sid, action);
      r, victim := Dispatch(sid, action, id, rid, now, answer, victim);
      OldestIsIn(h.pending, victim);
      SubmitCases(h, sid, action, id, rid, now, victim, answer);
    }

    /** The attempt to fail a session in Planning is refused by the lifecycle table, and the refusal swallowed. */
    method RefuseAction(sid: SessionId, actionId: ActionId)
      requires sid in sessions && sessions[sid].state == Planning && !sessions[sid].cancelled
      modifies this`sessions, this`journal, this`events, this`publishedEventCount
      ensures sessions == old(sessions)
      ensures Log() == Tell(old(Log()), ActionDenied(sid, actionId), OnActionDenied(sid, actionId))
    {
      var swallowed := AdvanceSession(sid, SessionState.Failed);
      Announce(ActionDenied(sid, actionId), OnActionDenied(sid, actionId));
    }

    /** Parks or runs a validated action of a session in Planning. */
    method Dispatch(sid: SessionId, action: Action, id: ApprovalId, rid: RequestId, now: nat, answer: ExecAnswer, ghost chosen: ApprovalId)
      returns (r: Result<Outcome, AgentError>, ghost victim: ApprovalId)
      requires sid in sessions && sessions[sid].state == Planning && !sessions[sid].cancelled
      requires MustEvict(Value()) ==> IsOldest(pending, chosen)
      modifies this`sessions, this`pending, this`journal, this`events, this`publishedEventCount
      ensures MustEvict(old(Value())) ==> IsOldest(old(pending), victim) && victim in old(pending)
      ensures (Value(), r) == Dispatched(old(Value()), sid, action, id, rid, now, victim, answer)
    {
      hide IsOldest, Park, Served, ExecuteBook;
      if action.risk == High || action.risk == Critical {
        victim := ParkAction(sid, action, id, rid, now);
        r := Ok(Outcome(rid, None, false, Some(ApprovalRequired), WaitingApproval, Some(id)));
      } else {
        victim := chosen;
        r := ExecuteValidatedAction(sid, action, rid, answer);
      }
      OldestIsIn(old(pending), victim);
    }

    method ApproveRequest(id: ApprovalId, answer: ExecAnswer) returns (r: Result<Option<Outcome>, AgentError>)
      requires Inv(Value())
      modifies this
      ensures Known(old(Value()))
      ensures (Value(), r) == HostModel.ApproveRequest(old(Value()), id, answer)
      ensures Inv(Value())
    {
      hide Inv, HostModel.ApproveRequest;
      ghost var h := Value();
      KnownSessions(h);
      ApproveKeeps(h, id, answer);
      if id in pending { PendingAt(h, id); }
      r := Release(id, answer);
    }

    method Release(id: ApprovalId, answer: ExecAnswer) returns (r: Result<Option<Outcome>, AgentError>)
      requires id in pending ==> Parked(Value(), id)
      modifies this`pending, this`sessions, this`journal, this`events, this`publishedEventCount
      ensures (Value(), r) == HostModel.ApproveRequest(old(Value()), id, answer)
    {
      hide Tell, Served, ExecuteBook;
      if id !in pending { return Ok(None); }
      var p := pending[id];
      pending := pending - {id};
      Announce(ApprovalGranted(id, p.session, p.action), OnApprovalGranted(p.session, p.action.id));
      var outcome := ExecuteValidatedAction(p.session, p.action, p.request, answer);
      match outcome {
        case Ok(out) => r := Ok(Some(out));
        case Err(e) => r := Err(e);
      }
    }

    method DenyRequest(id: ApprovalId) returns (r: Result<bool, AgentError>)
      requires Inv(Value())
      modifies this
      ensures Known(old(Value()))
      ensures (Value(), r) == HostModel.DenyRequest(old(Value()), id)
      ensures Inv(Value())
    {
      hide Inv, HostModel.DenyRequest;
      ghost var h := Value();
      KnownSessions(h);
      DenyKeeps(h, id);
      if id in pending { PendingAt(h, id); }
      r := Drop(id);
    }

    method Drop(id: ApprovalId) returns (r: Result<bool, AgentError>)
      requires id in pending ==> Parked(Value(), id)
      modifies this`pending, this`sessions, this`journal, this`events, this`publishedEventCount
      ensures (Value(), r) == HostModel.DenyRequest(old(Value()), id)
    {
      hide Tell, Denied;
      if id !in pending { return Ok(false); }
      var p := pending[id];
      DeniedInSteps(sessions, p.session);
      pending := pending - {id};
      Announce(ApprovalDenied(id, p.session, p.action), OnApprovalDenied(p.session, p.action.id));
      var swallowed := AdvanceSession(p.session, SessionState.Cancelled);
      RecordSessionError(p.session);
      r := Ok(true);
    }

    method CancelAction(sid: SessionId, actionId: ActionId) returns (r: Result<bool, AgentError>)
      requires Inv(Value())
      modifies this
      ensures (Value(), r) == HostModel.CancelAction(old(Value()), sid, actionId)
      ensures Inv(Value())
    {
      hide Inv, Tell;
      ghost var h := Value();
      CancelActionKeeps(h, sid, actionId);
      if sid !in sessions { return Err(NotFound); }
      var s := sessions[sid];
      if actionId !in s.tokens { return Ok(false); }
      sessions := sessions[sid := s.(tokens := s.tokens - {actionId})];
      Announce(ActionDenied(sid, actionId), OnActionDenied(sid, actionId));
      r := Ok(true);
    }

    method CancelSession(sid: SessionId) returns (r: Result<bool, AgentError>)
      modifies this`sessions, this`journal, this`events, this`publishedEventCount
      ensures (Value(), r) == HostModel.CancelSession(old(Value()), sid)
    {
      hide Tell;
      if sid !in sessions { return Err(NotFound); }
      var s := sessions[sid].(tokens := {});
      sessions := sessions[sid := s];
      if IsTerminal(s.state) { return Ok(false); }
      sessions := sessions[sid := s.(state := SessionState.Cancelled, cancelled := true)];
      Announce(SessionCancelled(sid), OnSessionCancelled(sid));
      assert sessions == old(sessions)[sid := s.(state := SessionState.Cancelled, cancelled := true)];
      r := Ok(true);
    }

    /** `order` is the order in which the sessions were met. */
    method Stop() returns (r: Result<(), AgentError>, ghost order: seq<SessionId>)
      requires Inv(Value())
      modifies this
      ensures Enumerates(order, old(sessions))
      ensures (Value(), r) == HostModel.Stop(old(Value()), order)
      ensures Inv(Value())
    {
      hide Inv;
      ghost var h := Value();
      order := Listing(sessions.Keys);
      StopKeeps(h, order);
      if state == Stopped { return Ok(()), order; }
      var stopping := TransitionState(Stopping);
      if stopping.Err? { return Err(stopping.error), order; }
      order := CancelEverySession();
      StopKeeps(h, order);
      StopInPhase(h, order);
      var stopped := TransitionState(Stopped);
      r := Ok(());
    }

    method CancelEverySession() returns (ghost order: seq<SessionId>)
      modifies this`sessions, this`journal, this`events, this`publishedEventCount
      ensures Enumerates(order, old(sessions))
      ensures Value() == CancelAll(old(Value()), order)
    {
      hide HostModel.CancelSession;
      var ids := sessions.Keys;
      order := [];
      while ids != {}
        invariant forall s :: s in order <==> s in old(sessions) && s !in ids
        invariant ids <= old(sessions).Keys
        invariant forall i, j :: 0 <= i < j < |order| ==> order[i] != order[j]
        invariant Value() == CancelAll(old(Value()), order)
        decreases ids
      {
        var id :| id in ids;
        CancelAllSnoc(old(Value()), order, id);
        var swallowed := CancelSession(id);
        ids := ids - {id};
        order := order + [id];
      }
    }

    method Fail()
      requires Inv(Value())
      modifies this
      ensures Value() == HostModel.Fail(old(Value()))
      ensures Inv(Value())
    {
      hide Inv, Tell;
      FailKeeps(Value());
      Announce(HostFailed, OnHostFailed);
      state := HostState.Failed;
    }

    method GrantCapabilities(capabilities: seq<string>)
      requires Inv(Value())
      modifies this`capabilities
      ensures Value() == HostModel.GrantCapabilities(old(Value()), capabilities)
      ensures Inv(Value())
    {
      GrantKeeps(Value(), capabilities);
      this.capabilities := capabilities;
    }
  }

  /** The session of a pending approval is in order, and waits or was cancelled. */
  ghost predicate Parked(h: Host, id: ApprovalId)
    requires id in h.pending
  {
    var sid := h.pending[id].session;
    && sid in h.sessions && SessionOk(h.sessions[sid])
    && (h.sessions[sid].state == WaitingApproval || h.sessions[sid].state == SessionState.Cancelled)
  }

  lemma PendingAt(h: Host, id: ApprovalId)
    requires Inv(h) && id in h.pending
    ensures Parked(h, id)
  {
  }

  lemma {:induction false} CancelAllSnoc(h: Host, order: seq<SessionId>, id: SessionId)
    ensures CancelAll(h, order + [id]) == CancelSession(CancelAll(h, order), id).0
    decreases |order|
  {
    hide CancelSession;
    if order == [] {
      assert ([] + [id])[1..] == [];
      assert (order + [id])[0] == id;
      assert CancelAll(CancelSession(h, id).0, []) == CancelSession(h, id).0;
    } else {
      assert (order + [id])[1..] == order[1..] + [id];
      CancelAllSnoc(CancelSession(h, order[0]).0, order[1..], id);
    }
  }

  /** Whether the phase is already Stopping does not matter to the cancellations. */
  lemma {:induction false} StopInPhase(h: Host, order: seq<SessionId>)
    ensures CancelAll(h.(state := Stopping), order) == CancelAll(h, order).(state := Stopping)
    decreases |order|
  {
    if order != [] {
      StopInPhase(CancelSession(h, order[0]).0, order[1..]);
      assert CancelSession(h.(state := Stopping), order[0]).0 == CancelSession(h, order[0]).0.(state := Stopping);
    }
  }

  ghost function Listing(ids: set<SessionId>): (order: seq<SessionId>)
    ensures forall s :: s in order <==> s in ids
    ensures forall i, j :: 0 <= i < j < |order| ==> order[i] != order[j]
  {
    if ids == {} then [] else
    var id: SessionId :| id in ids;
    Listing(ids - {id}) + [id]
  }

  lemma SessionOkAt(h: Host, sid: SessionId)
    requires Inv(h)
    ensures sid in h.sessions ==> SessionOk(h.sessions[sid])
  {
  }

  /** Entering Executing, counting the action, settling and counting the request add up to `Served`. */
  lemma ServedInSteps(sessions: map<SessionId, Session>, sid: SessionId, action: Action, rid: RequestId, ok: bool)
    requires sid in sessions
    ensures var s0 := sessions[sid].(state := Executing);
            var s1 := s0.(tokens := s0.tokens + {action.id}, actionCount := s0.actionCount + 1);
            var s2 := if ok then s1.(state := Completed) else s1.(state := SessionState.Failed, errorCount := s1.errorCount + 1);
            var s3 := s2.(requests := s2.requests + [rid], requestCount := s2.requestCount + 1,
                          observationCount := s2.observationCount + 1);
            sessions[sid := s0][sid := s1][sid := s2][sid := s3] == sessions[sid := Served(sessions[sid], action, rid, ok)]
  {
  }

  /** Cancelling, or being cancelled already, and counting the error add up to `Denied`. */
  lemma DeniedInSteps(sessions: map<SessionId, Session>, sid: SessionId)
    requires sid in sessions
    ensures var s := sessions[sid].(state := SessionState.Cancelled);
            && sessions[sid := s][sid := s.(errorCount := s.errorCount + 1)] == sessions[sid := Denied(sessions[sid])]
            && (sessions[sid].state == SessionState.Cancelled ==>
                  sessions[sid := sessions[sid].(errorCount := sessions[sid].errorCount + 1)] == sessions[sid := Denied(sessions[sid])])
  {
  }

  lemma OldestIsIn(pending: map<ApprovalId, Pending>, id: ApprovalId)
    ensures IsOldest(pending, id) ==> id in pending
  {
  }

  /** The host after a submission has validated and before it is acted on. */
  function Planned(h: Host, sid: SessionId, action: Action): Host
    requires sid in h.sessions
  {
    h.(sessions := h.sessions[sid := h.sessions[sid].(state := Planning)], book := CheckBook(h.book, sid, action, h.capabilities))
  }

  function Dispatched(h: Host, sid: SessionId, action: Action, id: ApprovalId, rid: RequestId, now: nat,
                      victim: ApprovalId, answer: ExecAnswer): (Host, Result<Outcome, AgentError>)
    requires sid in h.sessions && (MustEvict(h) ==> victim in h.pending)
  {
    if NeedsConfirmation(action.risk) then
      (Park(h, sid, action, id, rid, now, victim),
       Ok(Outcome(rid, None, false, Some(ApprovalRequired), WaitingApproval, Some(id))))
    else
      var (h', out) := Execute(h, sid, action, rid, answer);
      (h', Ok(out))
  }

  lemma EvictNonEmpty(h: Host)
    ensures MustEvict(h) ==> h.pending != map[]
  {
  }

  lemma SameRoom(h: Host, sid: SessionId, action: Action)
    requires sid in h.sessions
    ensures MustEvict(Planned(h, sid, action)) == MustEvict(h)
  {
  }

  /** The submit step, case by case; that the session had already moved to Planning leaves no trace. */
  lemma SubmitCases(h: Host, sid: SessionId, action: Action, id: ApprovalId, rid: RequestId, now: nat,
                    victim: ApprovalId, answer: ExecAnswer)
    requires MustEvict(h) ==> victim in h.pending
    ensures var step := HostModel.SubmitAction(h, sid, action, id, rid, now, victim, answer);
            if !Accepting(h.state) then step == (h, Err(Internal))
            else if sid !in h.sessions then step == (h, Err(NotFound))
            else if h.sessions[sid].state != SessionState.Ready then step == (h, Err(AgentError.Session))
            else if !IsValid(h.capabilities, action) then
              step == (h.(sessions := h.sessions[sid := h.sessions[sid].(state := Planning)],
                          book := Tell(Mark(Mark(h.book, CapabilityChecked(sid, action, h.capabilities, false)), PolicyChecked(sid, action)),
                                       ActionDenied(sid, action.id), OnActionDenied(sid, action.id))), Err(Validation))
            else
              MustEvict(Planned(h, sid, action)) == MustEvict(h)
              && step == Dispatched(Planned(h, sid, action), sid, action, id, rid, now, victim, answer)
  {
    hide IsValid, Tell, Mark, ExecuteBook;
    if sid in h.sessions {
      var p := Planned(h, sid, action);
      assert p.sessions[sid := p.sessions[sid].(state := WaitingApproval)]
          == h.sessions[sid := h.sessions[sid].(state := WaitingApproval)];
      assert p.sessions[sid := Served(p.sessions[sid], action, rid, answer.Ok?)]
          == h.sessions[sid := Served(h.sessions[sid], action, rid, answer.Ok?)];
    }
  }

  lemma {:induction false} OldestExists(pending: map<ApprovalId, Pending>)
    requires pending != map[]
    ensures exists id :: IsOldest(pending, id)
    decreases |pending|
  {
    var id :| id in pending;
    if pending - {id} == map[] {
      assert forall o :: o in pending ==> o == id || o in pending - {id};
      assert IsOldest(pending, id);
    } else {
      SmallerWithout(pending, id);
      OldestExists(pending - {id});
      var m :| IsOldest(pending - {id}, m);
      assert forall o :: o in pending ==> o == id || o in pending - {id};
      assert IsOldest(pending, id) || IsOldest(pending, m);
    }
  }

  ghost function ChooseVictim(pending: map<ApprovalId, Pending>): (v: ApprovalId)
    ensures pending != map[] ==> IsOldest(pending, v)
  {
    if pending == map[] then 0 else
    OldestExists(pending);
    var v: ApprovalId :| IsOldest(pending, v);
    v
  }
}
