/** What every operation of the host keeps. */
module HostInvariant {
  import opened Prelude
  import opened Actions
  import opened Sessions
  import opened Validation
  import opened HostModel
  import opened HostLedger

  /** The session states an operation may leave behind. */
  predicate AtRest(s: SessionState) {
    s == SessionState.Ready || s == Planning || s == WaitingApproval || IsTerminal(s)
  }

  predicate HasRun(s: SessionState) {
    s == Completed || s == SessionState.Failed
  }

  predicate SessionOk(s: Session) {
    && AtRest(s.state)
    && (s.cancelled ==> s.state == SessionState.Cancelled)
    && s.actionCount == s.requestCount == s.observationCount == |s.requests|
    && s.actionCount == (if HasRun(s.state) then 1 else 0)
    && (s.tokens != {} ==> HasRun(s.state))
  }

  /** The pending map holds exactly the open requests of the ledger. */
  ghost predicate PendingAgrees(pending: map<ApprovalId, Pending>, l: Ledger) {
    && pending.Keys == Open(l)
    && forall id :: id in pending ==>
         l.requested[id] == Request.Request(pending[id].session, pending[id].action, pending[id].createdAt)
  }

  /** Pending approvals belong to known sessions that wait for them or were cancelled. */
  ghost predicate PendingSessions(pending: map<ApprovalId, Pending>, sessions: map<SessionId, Session>) {
    forall id :: id in pending ==>
      && pending[id].session in sessions
      && (sessions[pending[id].session].state == WaitingApproval || sessions[pending[id].session].state == SessionState.Cancelled)
  }

  ghost predicate PendingDistinct(pending: map<ApprovalId, Pending>) {
    forall a, b :: a in pending && b in pending && a != b ==> pending[a].session != pending[b].session
  }

  /** What was parked had validated. */
  ghost predicate PendingChecked(pending: map<ApprovalId, Pending>, l: Ledger) {
    forall id :: id in pending ==> (pending[id].session, pending[id].action) in l.checked
  }

  ghost predicate SessionsAgree(sessions: map<SessionId, Session>, l: Ledger) {
    && sessions.Keys == l.created
    && (forall s :: s in sessions ==> SessionOk(sessions[s]))
    && (forall s :: s in l.executed <==> s in sessions && HasRun(sessions[s].state))
    && (forall s :: s in l.cancelled ==> s in sessions && sessions[s].state == SessionState.Cancelled)
  }

  /** Pending approvals, sessions and ledger tell the same story. */
  ghost predicate Agree(pending: map<ApprovalId, Pending>, sessions: map<SessionId, Session>, l: Ledger) {
    && PendingAgrees(pending, l)
    && PendingSessions(pending, sessions)
    && PendingDistinct(pending)
    && PendingChecked(pending, l)
    && SessionsAgree(sessions, l)
  }

  /** Every entry is justified; the bus carries the announced entries, in order, and the counter counts them. */
  ghost predicate BookOk(b: Book) {
    Sound(b.journal) && b.events == EventsOf(b.journal) && b.eventCount == |b.events|
  }

  ghost predicate Bounded(h: Host) {
    && |h.sessions| <= h.maxSessions
    && |h.pending| <= Max(h.maxPending, 1)
  }

  ghost predicate AllOver(sessions: map<SessionId, Session>) {
    forall s :: s in sessions ==> IsTerminal(sessions[s].state)
  }

  ghost predicate PhaseOk(state: HostState, sessions: map<SessionId, Session>) {
    && (state == HostState.Ready || state == Running || state == Stopped || state == HostState.Failed)
    && (state == HostState.Ready ==> sessions == map[])
    && (state == Running || state == Stopped ==> sessions != map[])
    && (state == Stopped ==> AllOver(sessions))
  }

  /** Book, pending approvals and sessions are in order. */
  ghost predicate Core(h: Host) {
    BookOk(h.book) && Agree(h.pending, h.sessions, Tally(h.book.journal))
  }

  ghost predicate Inv(h: Host) {
    Core(h) && Bounded(h) && PhaseOk(h.state, h.sessions)
  }

  lemma StartInv(capabilities: seq<string>, maxSessions: nat, maxPending: nat)
    ensures Inv(StartHost(capabilities, maxSessions, maxPending))
  {
  }

  // ---- the book ----

  lemma TellKeeps(b: Book, e: Entry, ev: AgentEvent)
    requires BookOk(b) && Justified(Tally(b.journal), e) && EventOf(e) == Some(ev)
    ensures BookOk(Tell(b, e, ev)) && Tally(Tell(b, e, ev).journal) == Post(Tally(b.journal), e)
  {
    Append(b.journal, e);
  }

  lemma MarkKeeps(b: Book, e: Entry)
    requires BookOk(b) && Justified(Tally(b.journal), e) && EventOf(e) == None
    ensures BookOk(Mark(b, e)) && Tally(Mark(b, e).journal) == Post(Tally(b.journal), e)
  {
    Append(b.journal, e);
  }

  lemma CheckBookKeeps(b: Book, sid: SessionId, action: Action, granted: seq<string>)
    requires BookOk(b)
    ensures var b' := CheckBook(b, sid, action, granted);
            && BookOk(b')
            && Tally(b'.journal) == Post(Tally(b.journal), CapabilityChecked(sid, action, granted, IsValid(granted, action)))
  {
    hide IsValid;
    var e := CapabilityChecked(sid, action, granted, IsValid(granted, action));
    MarkKeeps(b, e);
    MarkKeeps(Mark(b, e), PolicyChecked(sid, action));
  }

  lemma ExecuteBookKeeps(b: Book, sid: SessionId, action: Action, ok: bool)
    requires BookOk(b) && Justified(Tally(b.journal), Executed(sid, action))
    ensures var b' := ExecuteBook(b, sid, action, ok);
            BookOk(b') && Tally(b'.journal) == Post(Tally(b.journal), Executed(sid, action))
  {
    hide BookOk, Tally;
    var b1 := Tell(b, ActionRequested(sid, action), OnActionRequested(sid, action.id));
    TellKeeps(b, ActionRequested(sid, action), OnActionRequested(sid, action.id));
    var b2 := Mark(b1, Executed(sid, action));
    MarkKeeps(b1, Executed(sid, action));
    if ok {
      TellKeeps(b2, ActionCompleted(sid, action), OnActionCompleted(sid, action.id));
      TellKeeps(Tell(b2, ActionCompleted(sid, action), OnActionCompleted(sid, action.id)),
                SessionCompleted(sid), OnSessionCompleted(sid));
    } else {
      TellKeeps(b2, ActionFailed(sid, action), OnActionFailed(sid, action.id));
    }
  }

  // ---- pending approvals, sessions and ledger ----

  /** Rewriting a session record without running its action. */
  lemma MoveSession(pending: map<ApprovalId, Pending>, sessions: map<SessionId, Session>, l: Ledger, sid: SessionId, s: Session)
    requires Agree(pending, sessions, l) && sid in sessions
    requires SessionOk(s)
    requires sid in l.executed <==> HasRun(s.state)
    requires sid in l.cancelled ==> s.state == SessionState.Cancelled
    requires (forall id :: id in pending ==> pending[id].session != sid) || s.state == SessionState.Cancelled || s.state == WaitingApproval
    ensures Agree(pending, sessions[sid := s], l)
  {
  }

  lemma CreateAgrees(pending: map<ApprovalId, Pending>, sessions: map<SessionId, Session>, l: Ledger, sid: SessionId, s: Session)
    requires Agree(pending, sessions, l) && sid !in sessions
    requires SessionOk(s) && s.state == SessionState.Ready
    ensures Agree(pending, sessions[sid := s], Post(l, SessionCreated(sid)))
  {
    assert Open(Post(l, SessionCreated(sid))) == Open(l);
  }

  lemma RunAgrees(pending: map<ApprovalId, Pending>, sessions: map<SessionId, Session>, l: Ledger,
                  sid: SessionId, action: Action, rid: RequestId, ok: bool)
    requires Agree(pending, sessions, l)
    requires sid in sessions && !IsTerminal(sessions[sid].state)
    requires forall id :: id in pending ==> pending[id].session != sid
    ensures Agree(pending, sessions[sid := Served(sessions[sid], action, rid, ok)], Post(l, Executed(sid, action)))
  {
    assert Open(Post(l, Executed(sid, action))) == Open(l);
  }

  lemma CheckAgrees(pending: map<ApprovalId, Pending>, sessions: map<SessionId, Session>, l: Ledger,
                    sid: SessionId, action: Action, granted: seq<string>, valid: bool)
    requires Agree(pending, sessions, l)
    ensures Agree(pending, sessions, Post(l, CapabilityChecked(sid, action, granted, valid)))
  {
    assert Open(Post(l, CapabilityChecked(sid, action, granted, valid))) == Open(l);
  }

  lemma CancelledAgrees(pending: map<ApprovalId, Pending>, sessions: map<SessionId, Session>, l: Ledger, sid: SessionId)
    requires Agree(pending, sessions, l)
    requires sid in sessions && sessions[sid].state == SessionState.Cancelled
    ensures Agree(pending, sessions, Post(l, SessionCancelled(sid)))
  {
    assert Open(Post(l, SessionCancelled(sid))) == Open(l);
  }

  /** Resolving a request takes it off both the pending map and the open requests. */
  lemma ResolveAgrees(pending: map<ApprovalId, Pending>, sessions: map<SessionId, Session>, l: Ledger, id: ApprovalId, l': Ledger)
    requires Agree(pending, sessions, l) && id in pending
    requires l' == l.(granted := l.granted + {id}) || l' == l.(denied := l.denied + {id}) || l' == l.(expired := l.expired + {id})
    ensures Agree(pending - {id}, sessions, l')
  {
    assert Open(l') == Open(l) - {id};
  }

  /** Adding a request to ledger and pending map together. */
  lemma AddAgrees(pending: map<ApprovalId, Pending>, sessions: map<SessionId, Session>, l: Ledger, id: ApprovalId, p: Pending)
    requires Agree(pending, sessions, l)
    requires id !in l.requested && id !in Resolved(l)
    requires p.session in sessions && sessions[p.session].state == WaitingApproval
    requires (p.session, p.action) in l.checked
    requires forall o :: o in pending ==> pending[o].session != p.session
    ensures Agree(pending[id := p], sessions, Post(l, ApprovalRequested(id, p.session, p.action, p.createdAt)))
  {
    assert Open(Post(l, ApprovalRequested(id, p.session, p.action, p.createdAt))) == Open(l) + {id};
  }

  lemma OldestIsOldestOpen(pending: map<ApprovalId, Pending>, sessions: map<SessionId, Session>, l: Ledger,
                           id: ApprovalId, p: Pending, victim: ApprovalId)
    requires Agree(pending, sessions, l) && IsOldest(pending, victim)
    requires id !in l.requested && id !in Resolved(l)
    ensures Justified(Post(l, ApprovalRequested(id, p.session, p.action, p.createdAt)),
                      ApprovalExpired(victim, pending[victim].session, id))
  {
    assert Open(Post(l, ApprovalRequested(id, p.session, p.action, p.createdAt))) == Open(l) + {id};
  }

  /** What the agreement says about one pending approval. */
  lemma PendingFacts(pending: map<ApprovalId, Pending>, sessions: map<SessionId, Session>, l: Ledger, id: ApprovalId)
    requires Agree(pending, sessions, l) && id in pending
    ensures var p := pending[id];
            && p.session in sessions
            && (sessions[p.session].state == WaitingApproval || sessions[p.session].state == SessionState.Cancelled)
            && OpenFor(l, id, p.session, p.action)
            && (p.session, p.action) in l.checked
            && (forall o :: o in pending - {id} ==> pending[o].session != p.session)
  {
  }

  /** What the agreement says about one session. */
  lemma SessionFacts(pending: map<ApprovalId, Pending>, sessions: map<SessionId, Session>, l: Ledger, sid: SessionId)
    requires Agree(pending, sessions, l) && sid in sessions
    ensures SessionOk(sessions[sid])
    ensures sid in l.executed <==> HasRun(sessions[sid].state)
    ensures sid in l.cancelled ==> sessions[sid].state == SessionState.Cancelled
    ensures sessions[sid].state == SessionState.Ready ==> forall o :: o in pending ==> pending[o].session != sid
  {
  }

  lemma SmallerWithout(pending: map<ApprovalId, Pending>, id: ApprovalId)
    requires id in pending
    ensures |pending - {id}| == |pending| - 1
  {
    assert (pending - {id}).Keys == pending.Keys - {id};
  }

  lemma GrowsByOne<V>(m: map<nat, V>, k: nat, v: V)
    requires k !in m
    ensures |m[k := v]| == |m| + 1
  {
    assert m[k := v].Keys == m.Keys + {k};
  }

  lemma SameSize<V>(m: map<nat, V>, k: nat, v: V)
    requires k in m
    ensures |m[k := v]| == |m| && m[k := v].Keys == m.Keys
  {
    assert m[k := v].Keys == m.Keys;
  }

  /** A session record may be rewritten in any phase, as long as a terminal session stays terminal. */
  lemma PhaseKeeps(state: HostState, sessions: map<SessionId, Session>, sid: SessionId, s: Session)
    requires PhaseOk(state, sessions) && sid in sessions
    requires IsTerminal(sessions[sid].state) ==> IsTerminal(s.state)
    ensures PhaseOk(state, sessions[sid := s])
  {
  }

  // ---- operations ----

  lemma CreateKeeps(h: Host, sid: SessionId)
    requires Inv(h) && sid !in h.sessions
    ensures Inv(CreateSession(h, sid).0)
  {
    if Accepting(h.state) && |h.sessions| < h.maxSessions {
      TellKeeps(h.book, SessionCreated(sid), OnSessionCreated(sid));
      var s := NewSession(h.nextOrdinal).(state := SessionState.Ready);
      CreateAgrees(h.pending, h.sessions, Tally(h.book.journal), sid, s);
      GrowsByOne(h.sessions, sid, s);
    }
  }

  /**
   Running the action of a session that has not run yet, was not cancelled, holds no pending
   approval and has the consent its risk asks for.
   */
  lemma ExecuteKeeps(h: Host, sid: SessionId, action: Action, rid: RequestId, answer: ExecAnswer)
    requires Core(h)
    requires sid in h.sessions && !IsTerminal(h.sessions[sid].state)
    requires forall id :: id in h.pending ==> h.pending[id].session != sid
    requires (sid, action) in Tally(h.book.journal).checked
    requires NeedsConfirmation(action.risk) ==> Consent(Tally(h.book.journal), sid, action)
    requires PhaseOk(h.state, h.sessions)
    ensures Core(Execute(h, sid, action, rid, answer).0)
    ensures |Execute(h, sid, action, rid, answer).0.sessions| == |h.sessions|
    ensures PhaseOk(h.state, Execute(h, sid, action, rid, answer).0.sessions)
  {
    hide BookOk, Agree, Tally, ExecuteBook, PhaseOk;
    PhaseKeeps(h.state, h.sessions, sid, Served(h.sessions[sid], action, rid, answer.Ok?));
    SessionFacts(h.pending, h.sessions, Tally(h.book.journal), sid);
    ExecuteBookKeeps(h.book, sid, action, answer.Ok?);
    RunAgrees(h.pending, h.sessions, Tally(h.book.journal), sid, action, rid, answer.Ok?);
    SameSize(h.sessions, sid, Served(h.sessions[sid], action, rid, answer.Ok?));
  }

  /** Parking the action of a session: with a free place, or after evicting the oldest approval. */
  lemma ParkKeeps(h: Host, sid: SessionId, action: Action, id: ApprovalId, rid: RequestId, now: nat, victim: ApprovalId)
    requires Core(h) && Bounded(h)
    requires sid in h.sessions && h.sessions[sid].state == SessionState.Ready
    requires (sid, action) in Tally(h.book.journal).checked && NeedsConfirmation(action.risk)
    requires id !in Tally(h.book.journal).requested
    requires MustEvict(h) ==> IsOldest(h.pending, victim)
    ensures Core(Park(h, sid, action, id, rid, now, victim))
    ensures Bounded(Park(h, sid, action, id, rid, now, victim))
  {
    hide BookOk, Agree, Tally, OldestOpen;
    var l := Tally(h.book.journal);
    var s := h.sessions[sid].(state := WaitingApproval);
    var p := Pending(sid, action, rid, now);
    var e := ApprovalRequested(id, sid, action, now);
    UnrequestedIsNowhere(h, id);
    SessionFacts(h.pending, h.sessions, l, sid);
    SameSize(h.sessions, sid, s);
    TellKeeps(h.book, e, OnApprovalRequested(sid, action.id));
    MoveSession(h.pending, h.sessions, l, sid, s);
    AddAgrees(h.pending, h.sessions[sid := s], l, id, p);
    if MustEvict(h) {
      OldestIsOldestOpen(h.pending, h.sessions, l, id, p, victim);
      EvictKeeps(h.pending, h.sessions[sid := s], Tell(h.book, e, OnApprovalRequested(sid, action.id)), id, p, victim);
    } else {
      GrowsByOne(h.pending, id, p);
    }
  }

  lemma UnrequestedIsNowhere(h: Host, id: ApprovalId)
    requires Core(h) && id !in Tally(h.book.journal).requested
    ensures id !in Resolved(Tally(h.book.journal)) && id !in h.pending
  {
    Exclusive(h.book.journal);
  }

  /** Removing the victim before or after the newcomer is added makes no difference. */
  lemma EvictKeeps(pending: map<ApprovalId, Pending>, sessions: map<SessionId, Session>, b: Book,
                   id: ApprovalId, p: Pending, victim: ApprovalId)
    requires victim in pending && id !in pending
    requires BookOk(b) && Agree(pending[id := p], sessions, Tally(b.journal))
    requires Justified(Tally(b.journal), ApprovalExpired(victim, pending[victim].session, id))
    ensures var b' := Mark(b, ApprovalExpired(victim, pending[victim].session, id));
            BookOk(b') && Agree((pending - {victim})[id := p], sessions, Tally(b'.journal))
    ensures |(pending - {victim})[id := p]| == |pending|
  {
    hide BookOk, Agree, Tally;
    var x := ApprovalExpired(victim, pending[victim].session, id);
    MarkKeeps(b, x);
    ResolveAgrees(pending[id := p], sessions, Tally(b.journal), victim, Post(Tally(b.journal), x));
    assert pending[id := p] - {victim} == (pending - {victim})[id := p];
    SmallerWithout(pending, victim);
    GrowsByOne(pending - {victim}, id, p);
  }

  lemma SubmitKeeps(h: Host, sid: SessionId, action: Action, id: ApprovalId, rid: RequestId, now: nat,
                    victim: ApprovalId, answer: ExecAnswer)
    requires Inv(h) && Legal(h, OpSubmit(sid, action, id, rid, now, victim, answer))
    ensures Inv(SubmitAction(h, sid, action, id, rid, now, victim, answer).0)
  {
    hide BookOk, Agree, Tally, Justified, CheckBook, IsValid, FreshApproval, PhaseOk;
    if Accepting(h.state) && sid in h.sessions && h.sessions[sid].state == SessionState.Ready {
      var valid := IsValid(h.capabilities, action);
      var l := Tally(h.book.journal);
      var h1 := h.(book := CheckBook(h.book, sid, action, h.capabilities));
      FreshIffUnrequested(h.book.journal, id);
      CheckBookKeeps(h.book, sid, action, h.capabilities);
      CheckAgrees(h.pending, h.sessions, l, sid, action, h.capabilities, valid);
      SessionFacts(h.pending, h.sessions, l, sid);
      if !valid {
        PhaseKeeps(h.state, h.sessions, sid, h.sessions[sid].(state := Planning));
        RefuseKeeps(h1, sid, action);
      } else if NeedsConfirmation(action.risk) {
        PhaseKeeps(h.state, h.sessions, sid, h.sessions[sid].(state := WaitingApproval));
        ParkKeeps(h1, sid, action, id, rid, now, victim);
      } else {
        ExecuteKeeps(h1, sid, action, rid, answer);
      }
    }
  }

  /** An action that fails validation leaves its session in Planning. */
  lemma RefuseKeeps(h: Host, sid: SessionId, action: Action)
    requires Core(h)
    requires sid in h.sessions && h.sessions[sid].state == SessionState.Ready
    ensures var s := h.sessions[sid].(state := Planning);
            && Core(h.(sessions := h.sessions[sid := s], book := Tell(h.book, ActionDenied(sid, action.id), OnActionDenied(sid, action.id))))
            && |h.sessions[sid := s]| == |h.sessions|
  {
    hide BookOk, Agree, Tally;
    var s := h.sessions[sid].(state := Planning);
    SessionFacts(h.pending, h.sessions, Tally(h.book.journal), sid);
    TellKeeps(h.book, ActionDenied(sid, action.id), OnActionDenied(sid, action.id));
    MoveSession(h.pending, h.sessions, Tally(h.book.journal), sid, s);
    SameSize(h.sessions, sid, s);
  }

  lemma ApproveKeeps(h: Host, id: ApprovalId, answer: ExecAnswer)
    requires Inv(h)
    requires id in h.pending ==> h.pending[id].session in h.sessions
    ensures Inv(ApproveRequest(h, id, answer).0)
  {
    hide BookOk, Agree, Tally, PhaseOk;
    if id in h.pending {
      var l := Tally(h.book.journal);
      var p := h.pending[id];
      var e := ApprovalGranted(id, p.session, p.action);
      PendingFacts(h.pending, h.sessions, l, id);
      TellKeeps(h.book, e, OnApprovalGranted(p.session, p.action.id));
      ResolveAgrees(h.pending, h.sessions, l, id, Post(l, e));
      SmallerWithout(h.pending, id);
      var h1 := h.(pending := h.pending - {id}, book := Tell(h.book, e, OnApprovalGranted(p.session, p.action.id)));
      if h.sessions[p.session].state == WaitingApproval {
        assert id in Post(l, e).granted;
        ExecuteKeeps(h1, p.session, p.action, p.request, answer);
      }
    }
  }

  lemma DenyAgrees(pending: map<ApprovalId, Pending>, sessions: map<SessionId, Session>, l: Ledger, id: ApprovalId)
    requires Agree(pending, sessions, l) && id in pending && pending[id].session in sessions
    ensures var sid := pending[id].session;
            Agree(pending - {id}, sessions[sid := Denied(sessions[sid])], l.(denied := l.denied + {id}))
  {
    hide Agree;
    var sid := pending[id].session;
    PendingFacts(pending, sessions, l, id);
    SessionFacts(pending, sessions, l, sid);
    ResolveAgrees(pending, sessions, l, id, l.(denied := l.denied + {id}));
    MoveSession(pending - {id}, sessions, l.(denied := l.denied + {id}), sid, Denied(sessions[sid]));
  }

  lemma DenyKeeps(h: Host, id: ApprovalId)
    requires Inv(h)
    requires id in h.pending ==> h.pending[id].session in h.sessions
    ensures Inv(DenyRequest(h, id).0)
  {
    hide BookOk, Agree, Tally, PhaseOk, Tell;
    if id in h.pending {
      var p := h.pending[id];
      PendingFacts(h.pending, h.sessions, Tally(h.book.journal), id);
      TellKeeps(h.book, ApprovalDenied(id, p.session, p.action), OnApprovalDenied(p.session, p.action.id));
      DenyAgrees(h.pending, h.sessions, Tally(h.book.journal), id);
      SmallerWithout(h.pending, id);
      PhaseKeeps(h.state, h.sessions, p.session, Denied(h.sessions[p.session]));
      SameSize(h.sessions, p.session, Denied(h.sessions[p.session]));
    }
  }

  lemma CancelActionKeeps(h: Host, sid: SessionId, actionId: ActionId)
    requires Inv(h)
    ensures Inv(CancelAction(h, sid, actionId).0)
  {
    hide BookOk, Agree, Tally, PhaseOk;
    if sid in h.sessions && actionId in h.sessions[sid].tokens {
      var s := h.sessions[sid].(tokens := h.sessions[sid].tokens - {actionId});
      Retoken(h, sid, h.sessions[sid].tokens - {actionId});
      TellKeeps(h.book, ActionDenied(sid, actionId), OnActionDenied(sid, actionId));
      SameSize(h.sessions, sid, s);
      PhaseKeeps(h.state, h.sessions, sid, s);
    }
  }

  /** The cancellation tokens of a session take no part in the agreement. */
  lemma Retoken(h: Host, sid: SessionId, tokens: set<ActionId>)
    requires Core(h) && sid in h.sessions && tokens <= h.sessions[sid].tokens
    ensures Agree(h.pending, h.sessions[sid := h.sessions[sid].(tokens := tokens)], Tally(h.book.journal))
  {
    hide BookOk, Tally, PendingAgrees, PendingChecked;
    var s := h.sessions[sid].(tokens := tokens);
    assert SessionOk(s);
  }

  lemma CancelSessionKeeps(h: Host, sid: SessionId)
    requires Inv(h)
    ensures var h' := CancelSession(h, sid).0;
            Inv(h') && h'.state == h.state && h'.sessions.Keys == h.sessions.Keys
  {
    hide BookOk, Agree, Tally, PhaseOk;
    if sid in h.sessions {
      var l := Tally(h.book.journal);
      var s := h.sessions[sid].(tokens := {});
      SessionFacts(h.pending, h.sessions, l, sid);
      if IsTerminal(s.state) {
        Retoken(h, sid, {});
        SameSize(h.sessions, sid, s);
        PhaseKeeps(h.state, h.sessions, sid, s);
      } else {
        var s' := s.(state := SessionState.Cancelled, cancelled := true);
        MoveSession(h.pending, h.sessions, l, sid, s');
        CancelledAgrees(h.pending, h.sessions[sid := s'], l, sid);
        TellKeeps(h.book, SessionCancelled(sid), OnSessionCancelled(sid));
        SameSize(h.sessions, sid, s');
        PhaseKeeps(h.state, h.sessions, sid, s');
      }
    }
  }

  /** Cancelling leaves terminal sessions as they are and makes the named session terminal. */
  lemma CancelSessionEnds(h: Host, sid: SessionId)
    ensures var h' := CancelSession(h, sid).0;
            && (forall s :: s in h.sessions && (s == sid || IsTerminal(h.sessions[s].state)) ==>
                  s in h'.sessions && IsTerminal(h'.sessions[s].state))
  {
  }

  lemma {:induction false} CancelAllKeeps(h: Host, order: seq<SessionId>)
    requires Inv(h) && h.state == Running
    ensures var h' := CancelAll(h, order); Inv(h') && h'.state == Running && h'.sessions.Keys == h.sessions.Keys
    decreases |order|
  {
    hide Inv, CancelSession;
    if order != [] {
      CancelSessionKeeps(h, order[0]);
      CancelAllKeeps(CancelSession(h, order[0]).0, order[1..]);
    }
  }

  lemma {:induction false} CancelAllEnds(h: Host, order: seq<SessionId>)
    ensures var h' := CancelAll(h, order);
            forall s :: s in h.sessions && (s in order || IsTerminal(h.sessions[s].state)) ==>
              s in h'.sessions && IsTerminal(h'.sessions[s].state)
    decreases |order|
  {
    if order != [] {
      CancelSessionEnds(h, order[0]);
      hide CancelSession;
      CancelAllEnds(CancelSession(h, order[0]).0, order[1..]);
    }
  }

  lemma StopKeeps(h: Host, order: seq<SessionId>)
    requires Inv(h) && Enumerates(order, h.sessions)
    ensures Inv(Stop(h, order).0)
  {
    hide BookOk, Agree, Tally, CancelAll;
    if h.state == Running {
      CancelAllKeeps(h, order);
      CancelAllEnds(h, order);
    }
  }

  lemma FailKeeps(h: Host)
    requires Inv(h)
    ensures Inv(Fail(h))
  {
    hide BookOk, Agree, Tally;
    TellKeeps(h.book, HostFailed, OnHostFailed);
  }

  lemma KnownSessions(h: Host)
    requires Inv(h)
    ensures Known(h)
  {
  }

  lemma StepKeeps(h: Host, op: Op)
    requires Inv(h) && Legal(h, op)
    ensures Known(h) && Inv(Step(h, op))
  {
    hide Inv, Known;
    KnownSessions(h);
    match op
    case OpCreate(sid) => CreateKeeps(h, sid);
    case OpSubmit(sid, action, id, rid, now, victim, answer) =>
      SubmitKeeps(h, sid, action, id, rid, now, victim, answer);
    case OpApprove(id, answer) => ApproveKeeps(h, id, answer);
    case OpDeny(id) => DenyKeeps(h, id);
    case OpCancelAction(sid, actionId) => CancelActionKeeps(h, sid, actionId);
    case OpCancelSession(sid) => CancelSessionKeeps(h, sid);
    case OpStop(order) => StopKeeps(h, order);
    case OpFail => FailKeeps(h);
    case OpGrant(capabilities) => GrantKeeps(h, capabilities);
  }

  lemma GrantKeeps(h: Host, capabilities: seq<string>)
    requires Inv(h)
    ensures Inv(GrantCapabilities(h, capabilities))
  {
  }
}
