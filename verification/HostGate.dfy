/**
 The approval gate over whole runs: what had to happen before an action ran, under which
 capabilities it was found valid, which risk the gate reads, and when the host can be stopped.
 */
module HostGate {
  import opened Actions
  import opened Sessions
  import opened Validation
  import opened HostModel
  import opened HostLedger
  import opened HostInvariant
  import opened HostRuns

  // ---- the capabilities a check was made under ----

  /**
   Operation `n` of the run is a submission, it wrote entry `e` at position `c` of the journal,
   and `e` is its check under the capabilities the host had just before.
   */
  ghost predicate SubmittedAt(h: Host, ops: seq<Op>, n: nat, c: nat, e: Entry) {
    && n < |ops| && ops[n].OpSubmit? && LegalRun(h, ops[..n]) && LegalRun(h, ops[..n + 1])
    && var before, after := Run(h, ops[..n]), Run(h, ops[..n + 1]);
       && |before.book.journal| <= c < |after.book.journal| && after.book.journal[c] == e
       && e == CapabilityChecked(ops[n].session, ops[n].action, before.capabilities,
                                 IsValid(before.capabilities, ops[n].action))
  }

  lemma {:induction false} CancelAllChecksNothing(h: Host, order: seq<SessionId>, c: nat)
    requires |h.book.journal| <= c < |CancelAll(h, order).book.journal|
    ensures CancelAll(h, order).book.journal[c].SessionCancelled?
    decreases |order|
  {
    if order != [] {
      var h1 := CancelSession(h, order[0]).0;
      CancelAllExtends(h1, order[1..]);
      if c >= |h1.book.journal| {
        CancelAllChecksNothing(h1, order[1..], c);
      }
    }
  }

  lemma ApproveChecksNothing(h: Host, id: ApprovalId, answer: ExecAnswer, c: nat)
    requires id in h.pending ==> h.pending[id].session in h.sessions
    requires |h.book.journal| <= c < |ApproveRequest(h, id, answer).0.book.journal|
    ensures !ApproveRequest(h, id, answer).0.book.journal[c].CapabilityChecked?
  {
  }

  lemma CreateChecksNothing(h: Host, sid: SessionId, c: nat)
    requires |h.book.journal| <= c < |CreateSession(h, sid).0.book.journal|
    ensures !CreateSession(h, sid).0.book.journal[c].CapabilityChecked?
  {
  }

  lemma SubmitChecks(h: Host, sid: SessionId, action: Action, id: ApprovalId, rid: RequestId, now: nat,
                     victim: ApprovalId, answer: ExecAnswer, c: nat)
    requires MustEvict(h) ==> victim in h.pending
    requires var j := SubmitAction(h, sid, action, id, rid, now, victim, answer).0.book.journal;
             |h.book.journal| <= c < |j| && j[c].CapabilityChecked?
    ensures SubmitAction(h, sid, action, id, rid, now, victim, answer).0.book.journal[c]
         == CapabilityChecked(sid, action, h.capabilities, IsValid(h.capabilities, action))
  {
    hide IsValid, MustEvict;
  }

  /** Only a submission is checked, and under the capabilities of that moment. */
  lemma StepChecks(h: Host, op: Op, c: nat)
    requires Known(h) && Legal(h, op)
    requires |h.book.journal| <= c < |Step(h, op).book.journal| && Step(h, op).book.journal[c].CapabilityChecked?
    ensures op.OpSubmit?
    ensures Step(h, op).book.journal[c] == CapabilityChecked(op.session, op.action, h.capabilities, IsValid(h.capabilities, op.action))
  {
    hide IsValid, FreshApproval, IsOldest, Enumerates, CancelAll, SubmitAction, ApproveRequest, CreateSession;
    match op
    case OpSubmit(sid, action, id, rid, now, victim, answer) =>
      OldestIsPending(h, victim);
      SubmitChecks(h, sid, action, id, rid, now, victim, answer, c);
    case OpApprove(id, answer) => ApproveChecksNothing(h, id, answer, c);
    case OpCreate(sid) => CreateChecksNothing(h, sid, c);
    case OpStop(order) =>
      if h.state == Running {
        CancelAllChecksNothing(h, order, c);
      }
    case _ =>
  }

  /** Every check in the journal was made by a submission of the run, under the capabilities in force when it was made. */
  lemma {:induction false} ChecksInForce(h: Host, ops: seq<Op>, c: nat) returns (n: nat)
    requires Inv(h) && LegalRun(h, ops)
    requires |h.book.journal| <= c < |Run(h, ops).book.journal| && Run(h, ops).book.journal[c].CapabilityChecked?
    ensures SubmittedAt(h, ops, n, c, Run(h, ops).book.journal[c])
    decreases |ops|
  {
    hide Inv, Step, Legal, IsValid;
    var h1 := Step(h, ops[0]);
    StepKeeps(h, ops[0]);
    RunExtends(h1, ops[1..]);
    if c < |h1.book.journal| {
      n := 0;
      StepChecks(h, ops[0], c);
      assert ops[..0] == [] && ops[..1] == [ops[0]] && ops[..1][1..] == [];
      assert LegalRun(h1, []) && Run(h1, []) == h1;
      assert LegalRun(h, ops[..1]) && Run(h, ops[..1]) == h1;
    } else {
      var m := ChecksInForce(h1, ops[1..], c);
      n := m + 1;
      assert ops[..n][1..] == ops[1..][..m] && ops[..n + 1][1..] == ops[1..][..m + 1];
    }
  }

  // ---- the gate ----

  /** An action of any risk reaches the executor only if it was valid under the capabilities its submission met. */
  lemma ExecutedWasValidInForce(h: Host, capabilities: seq<string>, maxSessions: nat, maxPending: nat, ops: seq<Op>, i: nat)
    returns (n: nat, c: nat)
    requires Reached(h, capabilities, maxSessions, maxPending, ops)
    requires i < |h.book.journal| && h.book.journal[i].Executed?
    ensures var j := h.book.journal;
            && c < i && PassedAt(j, c, j[i].session, j[i].action) && IsValid(j[c].granted, j[i].action)
            && SubmittedAt(StartHost(capabilities, maxSessions, maxPending), ops, n, c, j[c])
  {
    hide Inv, Run, LegalRun, IsValid;
    StartInv(capabilities, maxSessions, maxPending);
    RunKeeps(StartHost(capabilities, maxSessions, maxPending), ops);
    c := SoundValid(h, i);
    n := ChecksInForce(StartHost(capabilities, maxSessions, maxPending), ops, c);
  }

  lemma SoundValid(h: Host, i: nat) returns (c: nat)
    requires Inv(h) && i < |h.book.journal| && h.book.journal[i].Executed?
    ensures var j := h.book.journal; c < i && PassedAt(j, c, j[i].session, j[i].action) && IsValid(j[c].granted, j[i].action)
  {
    c := ExecutedWasValid(h.book.journal, i);
  }

  /**
   The approval gate in every reachable host: an action carrying High or Critical risk ran
   only after a submission found it valid under the capabilities then in force (`n` in the
   run, `c` in the journal), it was parked (`r`) and granted (`g`).
   */
  lemma GateOverRuns(h: Host, capabilities: seq<string>, maxSessions: nat, maxPending: nat, ops: seq<Op>, i: nat)
    returns (n: nat, c: nat, r: nat, g: nat)
    requires Reached(h, capabilities, maxSessions, maxPending, ops) && i < |h.book.journal|
    requires h.book.journal[i].Executed? && NeedsConfirmation(h.book.journal[i].action.risk)
    ensures var j := h.book.journal;
            && ConsentedBy(j, i, c, r, g)
            && SubmittedAt(StartHost(capabilities, maxSessions, maxPending), ops, n, c, j[c])
            && (forall k :: 0 <= k < |j| && (j[k].ApprovalDenied? || j[k].ApprovalExpired?) ==> j[k].approval != j[r].approval)
            && (forall k :: 0 <= k < |j| && j[k].SessionCancelled? ==> j[k].session != j[i].session)
            && (forall k :: 0 <= k < |j| && k != i && j[k].Executed? ==> j[k].session != j[i].session)
  {
    hide Inv, Run, LegalRun, IsValid, SubmittedAt;
    StartInv(capabilities, maxSessions, maxPending);
    RunKeeps(StartHost(capabilities, maxSessions, maxPending), ops);
    SoundBook(h);
    c, r, g := ApprovalGate(h.book.journal, i);
    n := ChecksInForce(StartHost(capabilities, maxSessions, maxPending), ops, c);
  }

  lemma SoundBook(h: Host)
    requires Inv(h)
    ensures Sound(h.book.journal)
  {
  }

  // ---- what a grant does not check again ----

  /** What is parked was valid when it was parked, so only a capability withdrawn since can make it invalid. */
  lemma ParkedInvalidIff(h: Host, id: ApprovalId)
    requires Inv(h) && id in h.pending
    ensures var a := h.pending[id].action;
            !IsValid(h.capabilities, a) <==> exists cap :: cap in a.capabilities && cap !in h.capabilities
  {
    var p := h.pending[id];
    ParkedWasChecked(h, id);
    var c := CheckedAt(h.book.journal, p.session, p.action);
    SoundBook(h);
    SoundPrefix(h.book.journal, c);
  }

  lemma ParkedWasChecked(h: Host, id: ApprovalId)
    requires Inv(h) && id in h.pending
    ensures (h.pending[id].session, h.pending[id].action) in Tally(h.book.journal).checked
  {
  }

  /**
   Granting validates nothing again. It runs an action the validator would now refuse exactly
   when the session still waits and a capability the action asks for has been withdrawn.
   */
  lemma GrantRunsInvalidIff(h: Host, id: ApprovalId, answer: ExecAnswer)
    requires Reachable(h) && Known(h) && id in h.pending
    ensures var a := h.pending[id].action;
            && Executions(ApproveRequest(h, id, answer).0.book.journal) > Executions(h.book.journal)
            && !IsValid(h.capabilities, a)
            <==>
            && h.sessions[h.pending[id].session].state == WaitingApproval
            && exists cap :: cap in a.capabilities && cap !in h.capabilities
  {
    hide Inv, Count, IsValid, ApproveRequest;
    ReachableInv(h);
    GrantRunsIffWaiting(h, id, answer);
    ParkedInvalidIff(h, id);
  }

  // ---- the risk the gate reads ----

  /** What a submission runs: a valid action of a ready session whose carried risk asks for no confirmation. */
  lemma SubmitRunsIff(h: Host, sid: SessionId, action: Action, id: ApprovalId, rid: RequestId, now: nat,
                      victim: ApprovalId, answer: ExecAnswer)
    requires MustEvict(h) ==> victim in h.pending
    ensures var i := |h.book.journal| + 3;
            var j' := SubmitAction(h, sid, action, id, rid, now, victim, answer).0.book.journal;
            if Accepting(h.state) && sid in h.sessions && h.sessions[sid].state == SessionState.Ready
               && IsValid(h.capabilities, action) && !NeedsConfirmation(action.risk)
            then i < |j'| && j'[i] == Executed(sid, action)
            else forall k :: |h.book.journal| <= k < |j'| ==> !j'[k].Executed?
  {
    hide IsValid, MustEvict;
  }

  /** In every reachable host, an executed action had consent exactly when the risk it carried is High or Critical. */
  lemma ConsentFollowsCarriedRisk(h: Host, i: nat)
    requires Reachable(h) && i < |h.book.journal| && h.book.journal[i].Executed?
    ensures Consented(h.book.journal, i) <==> NeedsConfirmation(h.book.journal[i].action.risk)
  {
    hide Inv;
    ReachableInv(h);
    SoundBook(h);
    ConsentedIffCarried(h.book.journal, i);
  }

  /** Entry `i` is an executor call for `action` that nobody consented to. */
  ghost predicate RanUnasked(j: seq<Entry>, i: nat, sid: SessionId, action: Action) {
    i < |j| && j[i] == Executed(sid, action) && !Consented(j, i)
  }

  /**
   The table does not gate. A valid submission of an action the table calls High or Critical
   runs without consent exactly when the action carries another risk than High or Critical.
   */
  lemma TableBypassedIff(h: Host, sid: SessionId, action: Action, id: ApprovalId, rid: RequestId, now: nat,
                         victim: ApprovalId, answer: ExecAnswer)
    requires Reachable(h) && Known(h) && Legal(h, OpSubmit(sid, action, id, rid, now, victim, answer))
    requires Accepting(h.state) && sid in h.sessions && h.sessions[sid].state == SessionState.Ready
    requires IsValid(h.capabilities, action) && NeedsConfirmation(ClassifiedRisk(action.variant))
    ensures var j := h.book.journal;
            var j' := SubmitAction(h, sid, action, id, rid, now, victim, answer).0.book.journal;
            (exists i :: |j| <= i && RanUnasked(j', i, sid, action)) <==> !NeedsConfirmation(action.risk)
  {
    hide Inv, IsValid, SubmitAction, FreshApproval, IsOldest, Consented;
    ReachableInv(h);
    OldestIsPending(h, victim);
    SubmitKeeps(h, sid, action, id, rid, now, victim, answer);
    var h' := SubmitAction(h, sid, action, id, rid, now, victim, answer).0;
    var j' := h'.book.journal;
    SoundBook(h');
    var n := |h.book.journal| + 3;
    SubmitRunsIff(h, sid, action, id, rid, now, victim, answer);
    if !NeedsConfirmation(action.risk) {
      ConsentedIffCarried(j', n);
      assert RanUnasked(j', n, sid, action);
    }
  }

  /** Actions that carry their table risk, as `NewAction` builds them, are gated by the table. */
  lemma TableRiskIsGated(h: Host, i: nat)
    requires Reachable(h) && i < |h.book.journal| && h.book.journal[i].Executed?
    ensures var a := h.book.journal[i].action;
            && (CarriesTableRisk(a) ==> (Consented(h.book.journal, i) <==> NeedsConfirmation(ClassifiedRisk(a.variant))))
            && (a == NewAction(a.id, a.sessionName, a.variant, a.reason) ==> CarriesTableRisk(a))
  {
    ConsentFollowsCarriedRisk(h, i);
  }

  /** The variants the source rates High or Critical. */
  predicate Grave(v: ActionVariant) {
    || v.FileDelete? || v.SystemSuspend? || v.SystemReboot? || v.SystemShutdown?
    || v.CredentialSeal? || v.CredentialUnseal? || v.PolicyReload?
  }

  /**
   Which actions wait, by name: in every reachable host that accepts work, a valid action as
   the constructor builds it parks exactly when it deletes a file, suspends, reboots, shuts
   down, seals or unseals a credential or reloads the policy; otherwise it runs at once.
   */
  lemma NewActionParksIff(h: Host, sid: SessionId, actionId: ActionId, name: string, v: ActionVariant, reason: string,
                          id: ApprovalId, rid: RequestId, now: nat, victim: ApprovalId, answer: ExecAnswer)
    requires Reachable(h) && Known(h)
    requires Legal(h, OpSubmit(sid, NewAction(actionId, name, v, reason), id, rid, now, victim, answer))
    requires Accepting(h.state) && sid in h.sessions && h.sessions[sid].state == SessionState.Ready
    requires IsValid(h.capabilities, NewAction(actionId, name, v, reason))
    ensures var a := NewAction(actionId, name, v, reason);
            var h' := SubmitAction(h, sid, a, id, rid, now, victim, answer).0;
            && (Grave(v) <==> id in h'.pending)
            && (Grave(v) ==> h'.pending[id].action == a && sid in h'.sessions && h'.sessions[sid].state == WaitingApproval
                             && Executions(h'.book.journal) == Executions(h.book.journal))
            && (!Grave(v) ==> |h'.book.journal| > |h.book.journal| + 3
                              && h'.book.journal[|h.book.journal| + 3] == Executed(sid, a) && !Consented(h'.book.journal, |h.book.journal| + 3))
  {
    hide Inv, IsValid, FreshApproval, IsOldest, Count, Consented, Tell, Mark, SubmitAction;
    var a := NewAction(actionId, name, v, reason);
    ReachableInv(h);
    OldestIsPending(h, victim);
    FreshIsNotPending(h, id);
    SubmitKeeps(h, sid, a, id, rid, now, victim, answer);
    var h' := SubmitAction(h, sid, a, id, rid, now, victim, answer).0;
    SoundBook(h');
    SubmitRunsIff(h, sid, a, id, rid, now, victim, answer);
    SubmitParksOrRuns(h, sid, a, id, rid, now, victim, answer);
    GraveIsRisky(v);
    if !Grave(v) {
      ConsentedIffCarried(h'.book.journal, |h.book.journal| + 3);
    }
  }

  /** Of these, rebooting and shutting down are Critical and the other five are High. */
  lemma GraveIsRisky(v: ActionVariant)
    ensures NeedsConfirmation(ClassifiedRisk(v)) <==> Grave(v)
    ensures ClassifiedRisk(v) == Critical <==> v.SystemReboot? || v.SystemShutdown?
    ensures ClassifiedRisk(v) == High <==> v.FileDelete? || v.SystemSuspend? || v.CredentialSeal? || v.CredentialUnseal? || v.PolicyReload?
  {
  }

  lemma FreshIsNotPending(h: Host, id: ApprovalId)
    requires Inv(h) && FreshApproval(h.book.journal, id)
    ensures id !in h.pending
  {
    FreshIffUnrequested(h.book.journal, id);
  }

  lemma SubmitParksOrRuns(h: Host, sid: SessionId, a: Action, id: ApprovalId, rid: RequestId, now: nat,
                          victim: ApprovalId, answer: ExecAnswer)
    requires Accepting(h.state) && sid in h.sessions && h.sessions[sid].state == SessionState.Ready
    requires IsValid(h.capabilities, a) && id !in h.pending && (MustEvict(h) ==> victim in h.pending)
    ensures var h' := SubmitAction(h, sid, a, id, rid, now, victim, answer).0;
            && (NeedsConfirmation(a.risk) <==> id in h'.pending)
            && (NeedsConfirmation(a.risk) ==>
                  && h'.pending[id].action == a && sid in h'.sessions && h'.sessions[sid].state == WaitingApproval
                  && Executions(h'.book.journal) == Executions(h.book.journal))
  {
    hide IsValid, Count, Tell, Mark, ExecuteBook, MustEvict;
    var p := (e: Entry) => e.Executed?;
    var check := CapabilityChecked(sid, a, h.capabilities, true);
    CountMark(h.book, check, p);
    CountMark(Mark(h.book, check), PolicyChecked(sid, a), p);
    var b := CheckBook(h.book, sid, a, h.capabilities);
    SameCapacity(h, b);
    var asked := Tell(b, ApprovalRequested(id, sid, a, now), OnApprovalRequested(sid, a.id));
    CountTell(b, ApprovalRequested(id, sid, a, now), OnApprovalRequested(sid, a.id), p);
    if MustEvict(h) {
      CountMark(asked, ApprovalExpired(victim, h.pending[victim].session, id), p);
    }
  }

  // ---- refusal ----

  /**
   A submission that fails validation leaves its session in Planning; whatever is called
   afterwards, the session stays there or is cancelled, and never runs anything.
   */
  lemma RefusedNeverRuns(h: Host, sid: SessionId, action: Action, id: ApprovalId, rid: RequestId, now: nat,
                         victim: ApprovalId, answer: ExecAnswer, ops: seq<Op>)
    requires Inv(h) && Known(h) && Legal(h, OpSubmit(sid, action, id, rid, now, victim, answer))
    requires Accepting(h.state) && sid in h.sessions && h.sessions[sid].state == SessionState.Ready
    requires !IsValid(h.capabilities, action)
    requires LegalRun(SubmitAction(h, sid, action, id, rid, now, victim, answer).0, ops)
    ensures var refused := SubmitAction(h, sid, action, id, rid, now, victim, answer).0;
            && sid in refused.sessions && refused.sessions[sid].state == Planning
            && var h' := Run(refused, ops);
               && sid in h'.sessions && h'.sessions[sid].state in {Planning, SessionState.Cancelled}
               && (forall k :: 0 <= k < |h'.book.journal| && h'.book.journal[k].Executed? ==> h'.book.journal[k].session != sid)
  {
    hide Inv, Run, LegalRun, IsValid, FreshApproval, IsOldest;
    OldestIsPending(h, victim);
    SubmitKeeps(h, sid, action, id, rid, now, victim, answer);
    var refused := SubmitAction(h, sid, action, id, rid, now, victim, answer).0;
    RunKeeps(refused, ops);
    RunExtends(refused, ops);
    RunStateDecides(Run(refused, ops), sid);
    var j := Run(refused, ops).book.journal;
    forall k | 0 <= k < |j| && j[k].Executed?
      ensures j[k].session != sid
    {
      Recorded(j, k);
    }
  }

  // ---- stopping ----

  /**
   `stop` is refused, leaving the host as it was, exactly when the host has failed or is still
   Ready; and it is still Ready exactly when it has not failed and no session was ever created.
   */
  lemma StopErrsIff(h: Host, order: seq<SessionId>)
    requires Reachable(h)
    ensures Stop(h, order).1.Err? <==> h.state == HostState.Failed || Creations(h.book.journal) == 0
    ensures Stop(h, order).1.Err? ==> Stop(h, order).0 == h
    ensures h.state == HostState.Ready <==> h.state != HostState.Failed && Creations(h.book.journal) == 0
  {
    hide Count, Reachable;
    OneShotSessions(h);
    ReachableInv(h);
    PhaseBySessions(h);
  }

  lemma PhaseBySessions(h: Host)
    requires Inv(h)
    ensures h.state in {HostState.Ready, Running, Stopped, HostState.Failed}
    ensures h.state == HostState.Ready ==> |h.sessions| == 0
    ensures h.state == Running || h.state == Stopped ==> |h.sessions| > 0
  {
  }

  /** A failed host stays failed, so it can never be stopped. */
  lemma {:induction false} FailedForever(h: Host, ops: seq<Op>, order: seq<SessionId>)
    requires LegalRun(h, ops) && h.state == HostState.Failed
    ensures Run(h, ops).state == HostState.Failed && Stop(Run(h, ops), order).1.Err?
    decreases |ops|
  {
    hide IsValid, FreshApproval, IsOldest, Enumerates, Tell, Mark;
    if ops != [] {
      FailedForever(Step(h, ops[0]), ops[1..], order);
    }
  }
}
