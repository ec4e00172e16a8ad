/** What the host answers: each reply read off the call, the executor's answer and the host afterwards. */
module HostReplies {
  import opened Prelude
  import opened Errors
  import opened Actions
  import opened Sessions
  import opened Validation
  import opened HostModel
  import opened HostLedger
  import opened HostInvariant
  import opened HostRuns
  import opened HostHistory

  /** The reply to a call that reached the executor, and the session it leaves behind. */
  ghost predicate RepliesAsRun(out: Outcome, before: Session, after: Session, action: Action, rid: RequestId, answer: ExecAnswer) {
    && out.request == rid && out.action == Some(action.id) && out.pendingApproval == None
    && (out.success <==> answer == Ok(true))
    && out.error == (if answer.Err? then Some(answer.error) else None)
    && out.state == after.state == (if answer.Ok? then Completed else SessionState.Failed)
    && after.requests == before.requests + [rid]
    && after.errorCount == before.errorCount + (if answer.Ok? then 0 else 1)
    && after.cancelled == before.cancelled && after.ordinal == before.ordinal
  }

  /** The reply to a call that parked its action. */
  ghost predicate RepliesAsParked(out: Outcome, h': Host, sid: SessionId, action: Action, id: ApprovalId, rid: RequestId, now: nat) {
    && out.request == rid && out.action == None && !out.success && out.error == Some(ApprovalRequired)
    && out.pendingApproval == Some(id) && id in h'.pending && h'.pending[id] == Pending(sid, action, rid, now)
    && sid in h'.sessions && out.state == h'.sessions[sid].state == WaitingApproval
  }

  /** Every reply of a submission: which error when, and what an Ok says. */
  lemma SubmitReplies(h: Host, sid: SessionId, action: Action, id: ApprovalId, rid: RequestId, now: nat,
                      victim: ApprovalId, answer: ExecAnswer)
    requires MustEvict(h) ==> victim in h.pending
    ensures var (h', r) := SubmitAction(h, sid, action, id, rid, now, victim, answer);
            var open := h.state == HostState.Ready || h.state == Running;
            && (r == Err(Internal) <==> !open)
            && (r == Err(NotFound) <==> open && sid !in h.sessions)
            && (r == Err(AgentError.Session) <==> open && sid in h.sessions && h.sessions[sid].state != SessionState.Ready)
            && (r == Err(Validation) <==> open && sid in h.sessions && h.sessions[sid].state == SessionState.Ready
                                          && !IsValid(h.capabilities, action))
            && (r.Err? ==> r.error in {Internal, NotFound, AgentError.Session, Validation})
            && (r.Err? && r.error != Validation ==> h' == h)
    ensures var (h', r) := SubmitAction(h, sid, action, id, rid, now, victim, answer);
            r.Ok? ==>
              if action.risk == High || action.risk == Critical then RepliesAsParked(r.value, h', sid, action, id, rid, now)
              else sid in h'.sessions && RepliesAsRun(r.value, h.sessions[sid], h'.sessions[sid], action, rid, answer)
  {
    hide IsValid, MustEvict, Tell, Mark, ExecuteBook;
  }

  /** Every reply of a grant. */
  lemma ApproveReplies(h: Host, id: ApprovalId, answer: ExecAnswer)
    requires Known(h)
    ensures var (h', r) := ApproveRequest(h, id, answer);
            && (r.Ok? && r.value.None? <==> id !in h.pending)
            && (r == Err(AgentError.Session) <==> id in h.pending && h.sessions[h.pending[id].session].state != WaitingApproval)
            && (r.Ok? && r.value.Some? <==> id in h.pending && h.sessions[h.pending[id].session].state == WaitingApproval)
            && (r.Err? ==> r.error == AgentError.Session)
            && (r.Ok? && r.value.None? ==> h' == h)
            && id !in h'.pending
    ensures var (h', r) := ApproveRequest(h, id, answer);
            r.Ok? && r.value.Some? ==>
              var p := h.pending[id];
              p.session in h'.sessions
              && RepliesAsRun(r.value.value, h.sessions[p.session], h'.sessions[p.session], p.action, p.request, answer)
  {
    hide Tell, ExecuteBook;
  }

  /** Every reply of a denial; the session ends Cancelled with one more error. */
  lemma DenyReplies(h: Host, id: ApprovalId)
    requires Known(h)
    ensures var (h', r) := DenyRequest(h, id);
            && (r == Ok(true) <==> id in h.pending)
            && (r == Ok(false) <==> id !in h.pending)
            && (r == Ok(false) ==> h' == h)
            && h'.pending == h.pending - {id}
            && (r == Ok(true) ==>
                  var sid := h.pending[id].session;
                  && sid in h'.sessions && h'.sessions[sid].state == SessionState.Cancelled
                  && h'.sessions[sid].errorCount == h.sessions[sid].errorCount + 1)
  {
    hide Tell;
  }

  /** Every reply of the two cancellations. */
  lemma CancelReplies(h: Host, sid: SessionId, actionId: ActionId)
    ensures var (h', r) := CancelSession(h, sid);
            && (r == Err(NotFound) <==> sid !in h.sessions)
            && (r == Ok(true) <==> sid in h.sessions && h.sessions[sid].state !in {Completed, SessionState.Failed, SessionState.Cancelled})
            && (r == Ok(false) <==> sid in h.sessions && h.sessions[sid].state in {Completed, SessionState.Failed, SessionState.Cancelled})
            && (r.Err? ==> h' == h && r.error == NotFound)
            && (r.Ok? ==> sid in h'.sessions && h'.sessions[sid].tokens == {})
            && (r == Ok(true) ==> h'.sessions[sid].state == SessionState.Cancelled && h'.sessions[sid].cancelled)
            && (r == Ok(false) ==> h'.sessions[sid].state == h.sessions[sid].state && h'.book == h.book)
    ensures var (h', r) := CancelAction(h, sid, actionId);
            && (r == Err(NotFound) <==> sid !in h.sessions)
            && (r == Ok(true) <==> sid in h.sessions && actionId in h.sessions[sid].tokens)
            && (r == Ok(false) <==> sid in h.sessions && actionId !in h.sessions[sid].tokens)
            && (r != Ok(true) ==> h' == h)
            && (r == Ok(true) ==> sid in h'.sessions && h'.sessions[sid].tokens == h.sessions[sid].tokens - {actionId})
  {
    hide Tell;
  }

  /** Every reply of a creation; a new session is Ready, numbered in order, with nothing counted. */
  lemma CreateReplies(h: Host, sid: SessionId)
    requires sid !in h.sessions
    ensures var (h', r) := CreateSession(h, sid);
            && (r == Ok(sid) <==> (h.state == HostState.Ready || h.state == Running) && |h.sessions| < h.maxSessions)
            && (r.Err? ==> r.error == Internal && h' == h)
            && (r.Ok? ==>
                  && r == Ok(sid) && h'.state == Running && h'.nextOrdinal == h.nextOrdinal + 1
                  && h'.sessions == h.sessions[sid := Session.Session(SessionState.Ready, false, h.nextOrdinal, [], {}, 0, 0, 0, 0)])
  {
    hide Tell;
  }

  // ---- what each call leaves in the journal ----

  /** The entries of an executor call, by its answer. */
  function RunEntries(sid: SessionId, action: Action, answer: ExecAnswer): seq<Entry> {
    [ActionRequested(sid, action), Executed(sid, action)]
    + if answer.Ok? then [ActionCompleted(sid, action), SessionCompleted(sid)] else [ActionFailed(sid, action)]
  }

  /** What a submission records, on each of its ways. */
  lemma SubmitRecords(h: Host, sid: SessionId, action: Action, id: ApprovalId, rid: RequestId, now: nat,
                      victim: ApprovalId, answer: ExecAnswer)
    requires MustEvict(h) ==> victim in h.pending
    requires Accepting(h.state) && sid in h.sessions && h.sessions[sid].state == SessionState.Ready
    ensures var valid := IsValid(h.capabilities, action);
            SubmitAction(h, sid, action, id, rid, now, victim, answer).0.book.journal
            == h.book.journal + [CapabilityChecked(sid, action, h.capabilities, valid), PolicyChecked(sid, action)]
             + if !valid then [ActionDenied(sid, action.id)]
               else if action.risk == High || action.risk == Critical then
                 [ApprovalRequested(id, sid, action, now)]
                 + if |h.pending| >= h.maxPending && h.pending != map[] then [ApprovalExpired(victim, h.pending[victim].session, id)] else []
               else RunEntries(sid, action, answer)
  {
    hide IsValid;
  }

  /** What the other calls record. */
  lemma OthersRecord(h: Host, id: ApprovalId, answer: ExecAnswer, sid: SessionId, actionId: ActionId)
    requires Known(h)
    ensures id in h.pending ==>
              var p := h.pending[id];
              && ApproveRequest(h, id, answer).0.book.journal
                 == h.book.journal + [ApprovalGranted(id, p.session, p.action)]
                  + (if h.sessions[p.session].state == WaitingApproval then RunEntries(p.session, p.action, answer) else [])
              && DenyRequest(h, id).0.book.journal == h.book.journal + [ApprovalDenied(id, p.session, p.action)]
    ensures CreateSession(h, sid).0.book.journal == h.book.journal + (if CreateSession(h, sid).1.Ok? then [SessionCreated(sid)] else [])
    ensures CancelSession(h, sid).0.book.journal
         == h.book.journal + (if CancelSession(h, sid).1 == Ok(true) then [SessionCancelled(sid)] else [])
    ensures CancelAction(h, sid, actionId).0.book.journal
         == h.book.journal + (if CancelAction(h, sid, actionId).1 == Ok(true) then [ActionDenied(sid, actionId)] else [])
    ensures Fail(h).book.journal == h.book.journal + [HostFailed]
  {
  }

  /**
   A grant answers as the submission would have, had the action needed no confirmation: the
   same reply as for the same action relabelled Low, in any host where that runs.
   */
  lemma GrantMirrorsSubmit(h: Host, id: ApprovalId, answer: ExecAnswer, g: Host, sid: SessionId, other: ApprovalId, now: nat, victim: ApprovalId)
    requires Known(h) && id in h.pending && h.sessions[h.pending[id].session].state == WaitingApproval
    requires MustEvict(g) ==> victim in g.pending
    requires Accepting(g.state) && sid in g.sessions && g.sessions[sid].state == SessionState.Ready
    requires IsValid(g.capabilities, WithRisk(h.pending[id].action, Low))
    ensures var p := h.pending[id];
            var granted := ApproveRequest(h, id, answer).1;
            var submitted := SubmitAction(g, sid, WithRisk(p.action, Low), other, p.request, now, victim, answer).1;
            granted.Ok? && granted.value.Some? && submitted == Ok(granted.value.value)
  {
    hide IsValid, MustEvict, Tell, Mark, ExecuteBook;
  }

  // ---- from submission to grant ----

  lemma {:induction false} CancelAllPending(h: Host, order: seq<SessionId>)
    ensures CancelAll(h, order).pending == h.pending
    decreases |order|
  {
    hide Tell;
    if order != [] {
      CancelAllPending(CancelSession(h, order[0]).0, order[1..]);
    }
  }

  /** A requested approval is never parked again, so what is pending under its id is what was. */
  lemma StepPending(h: Host, op: Op, id: ApprovalId)
    requires Known(h) && Legal(h, op) && id in Tally(h.book.journal).requested
    ensures id in Step(h, op).pending ==> id in h.pending && Step(h, op).pending[id] == h.pending[id]
  {
    hide IsValid, IsOldest, FreshApproval, Enumerates, CancelAll, Tell, Mark, Tally, ExecuteBook;
    match op
    case OpSubmit(_, _, newcomer, _, _, _, _) => FreshIffUnrequested(h.book.journal, newcomer);
    case OpStop(order) => CancelAllPending(h, order);
    case _ =>
  }

  lemma {:induction false} RunPending(h: Host, ops: seq<Op>, id: ApprovalId)
    requires Inv(h) && LegalRun(h, ops) && id in Tally(h.book.journal).requested
    ensures id in Run(h, ops).pending ==> id in h.pending && Run(h, ops).pending[id] == h.pending[id]
    decreases |ops|
  {
    hide Inv, Step, Legal, Tally;
    if ops != [] {
      var h1 := Step(h, ops[0]);
      StepPending(h, ops[0], id);
      StepKeeps(h, ops[0]);
      StepExtends(h, ops[0]);
      SoundOf(h1);
      assert h1.book.journal[..|h.book.journal|] == h.book.journal;
      RequestStays(h1.book.journal, |h.book.journal|, id);
      RunPending(h1, ops[1..], id);
    }
  }

  /**
   Across a park: whatever is called between submission and grant, the grant runs the action
   submitted, in its session, and answers under the request id given at submission.
   */
  lemma ReplyAcrossPark(h: Host, sid: SessionId, action: Action, id: ApprovalId, rid: RequestId, now: nat,
                        victim: ApprovalId, answer: ExecAnswer, ops: seq<Op>, granted: ExecAnswer)
    requires Inv(h) && Known(h) && Legal(h, OpSubmit(sid, action, id, rid, now, victim, answer)) && Parks(h, sid, action)
    requires LegalRun(SubmitAction(h, sid, action, id, rid, now, victim, answer).0, ops)
    ensures var h2 := Run(SubmitAction(h, sid, action, id, rid, now, victim, answer).0, ops);
            id in h2.pending ==>
              && h2.pending[id] == Pending(sid, action, rid, now) && sid in h2.sessions
              && var (h3, r) := ApproveRequest(h2, id, granted);
                 h2.sessions[sid].state == WaitingApproval ==>
                   && r.Ok? && r.value.Some? && sid in h3.sessions
                   && RepliesAsRun(r.value.value, h2.sessions[sid], h3.sessions[sid], action, rid, granted)
  {
    hide Inv, Run, LegalRun, SubmitAction, ApproveRequest, IsOldest, FreshApproval, Tally, RepliesAsRun;
    OldestIsPending(h, victim);
    SubmitKeeps(h, sid, action, id, rid, now, victim, answer);
    var h1 := SubmitAction(h, sid, action, id, rid, now, victim, answer).0;
    ParkedEntry(h, sid, action, id, rid, now, victim, answer);
    PendingAsks(h1, id);
    RunPending(h1, ops, id);
    RunKeeps(h1, ops);
    var h2 := Run(h1, ops);
    KnownSessions(h2);
    if id in h2.pending {
      ApproveReplies(h2, id, granted);
    }
  }

  lemma ParkedEntry(h: Host, sid: SessionId, action: Action, id: ApprovalId, rid: RequestId, now: nat,
                    victim: ApprovalId, answer: ExecAnswer)
    requires Parks(h, sid, action) && (MustEvict(h) ==> victim in h.pending)
    ensures var h1 := SubmitAction(h, sid, action, id, rid, now, victim, answer).0;
            id in h1.pending && h1.pending[id] == Pending(sid, action, rid, now)
  {
    hide IsValid, MustEvict, Tell, Mark;
  }
}
