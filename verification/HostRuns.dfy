/** The host over whole runs: what holds after any legal sequence of operations. */
module HostRuns {
  import opened Prelude
  import opened Actions
  import opened Sessions
  import opened Validation
  import opened HostModel
  import opened HostLedger
  import opened HostInvariant

  /** `ops` can be performed one after the other from `h`. */
  ghost predicate LegalRun(h: Host, ops: seq<Op>)
    decreases |ops|
  {
    ops == [] || (Known(h) && Legal(h, ops[0]) && LegalRun(Step(h, ops[0]), ops[1..]))
  }

  ghost function Run(h: Host, ops: seq<Op>): Host
    requires LegalRun(h, ops)
    decreases |ops|
  {
    if ops == [] then h else Run(Step(h, ops[0]), ops[1..])
  }

  /** The host after a run from its start. */
  ghost predicate Reached(h: Host, capabilities: seq<string>, maxSessions: nat, maxPending: nat, ops: seq<Op>) {
    LegalRun(StartHost(capabilities, maxSessions, maxPending), ops)
    && h == Run(StartHost(capabilities, maxSessions, maxPending), ops)
  }

  ghost predicate Reachable(h: Host) {
    exists capabilities, maxSessions, maxPending, ops :: Reached(h, capabilities, maxSessions, maxPending, ops)
  }

  lemma {:induction false} RunKeeps(h: Host, ops: seq<Op>)
    requires Inv(h) && LegalRun(h, ops)
    ensures Inv(Run(h, ops))
    decreases |ops|
  {
    hide Inv, Step;
    if ops != [] {
      StepKeeps(h, ops[0]);
      RunKeeps(Step(h, ops[0]), ops[1..]);
    }
  }

  /** Every reachable host satisfies the invariant. */
  lemma ReachableInv(h: Host)
    requires Reachable(h)
    ensures Inv(h)
  {
    hide Inv, Run;
    var capabilities, maxSessions, maxPending, ops :| Reached(h, capabilities, maxSessions, maxPending, ops);
    StartInv(capabilities, maxSessions, maxPending);
    RunKeeps(StartHost(capabilities, maxSessions, maxPending), ops);
  }

  // ---- resting states, one action per session, caps ----

  /** Between calls sessions rest, and no more actions ran than sessions were created. */
  lemma OneShotSessions(h: Host)
    requires Reachable(h)
    ensures forall s :: s in h.sessions ==> AtRest(h.sessions[s].state) && h.sessions[s].actionCount <= 1
    ensures Creations(h.book.journal) == |h.sessions| <= h.maxSessions
    ensures Executions(h.book.journal) <= Creations(h.book.journal)
  {
    ReachableInv(h);
    CountsAreSizes(h.book.journal);
    var l := Tally(h.book.journal);
    assert l.executed <= h.sessions.Keys;
    SubsetSize(l.executed, h.sessions.Keys);
    assert |h.sessions| == |h.sessions.Keys|;
  }

  lemma {:induction false} SubsetSize<T>(a: set<T>, b: set<T>)
    requires a <= b
    ensures |a| <= |b|
  {
    if a != {} {
      var x :| x in a;
      SubsetSize(a - {x}, b - {x});
    }
  }

  /** Pending approvals belong to different known sessions that wait or were cancelled; both caps hold. */
  lemma PendingApprovals(h: Host)
    requires Reachable(h)
    ensures forall id :: id in h.pending ==>
              && h.pending[id].session in h.sessions
              && h.sessions[h.pending[id].session].state in {WaitingApproval, SessionState.Cancelled}
    ensures forall a, b :: a in h.pending && b in h.pending && a != b ==> h.pending[a].session != h.pending[b].session
    ensures |h.pending| <= Max(h.maxPending, 1)
  {
    ReachableInv(h);
  }

  /** Nothing parked is lost, the counter counts the bus, and the bus repeats the journal. */
  lemma ConservationOverRuns(h: Host)
    requires Reachable(h)
    ensures var j := h.book.journal; Parked(j) == Grants(j) + Denials(j) + Evictions(j) + |h.pending|
    ensures h.book.events == EventsOf(h.book.journal) && h.book.eventCount == |h.book.events|
  {
    ReachableInv(h);
    Conservation(h.book.journal);
    assert |h.pending| == |h.pending.Keys|;
  }

  /** Whatever was evicted was the oldest approval open at that moment. */
  lemma EvictedIsOldest(h: Host, i: nat, o: ApprovalId)
    requires Reachable(h) && i < |h.book.journal| && h.book.journal[i].ApprovalExpired?
    requires o in Open(Tally(h.book.journal[..i])) && o != h.book.journal[i].newcomer
    ensures var l := Tally(h.book.journal[..i]);
            h.book.journal[i].approval in l.requested &&
            l.requested[h.book.journal[i].approval].createdAt <= l.requested[o].createdAt
  {
    ReachableInv(h);
    SoundPrefix(h.book.journal, i);
  }

  // ---- what a step can change ----

  /**
   How the resting state of a session may develop. A session refused in Planning can only be
   cancelled; a waiting one can run or be cancelled; an ended one never changes.
   */
  predicate Follows(from: SessionState, to: SessionState) {
    match from
    case Planning => to == Planning || to == SessionState.Cancelled
    case WaitingApproval => to == WaitingApproval || IsTerminal(to)
    case Completed | Failed | Cancelled => to == from
    case _ => true
  }

  /** The journal only grows, sessions are never forgotten and their states only move forward. */
  ghost predicate Extends(h: Host, h': Host) {
    && h.book.journal <= h'.book.journal
    && h.maxSessions == h'.maxSessions && h.maxPending == h'.maxPending
    && forall s :: s in h.sessions ==>
         s in h'.sessions && Follows(h.sessions[s].state, h'.sessions[s].state)
  }

  lemma CancelSessionExtends(h: Host, sid: SessionId)
    ensures Extends(h, CancelSession(h, sid).0)
  {
  }

  lemma ExtendsTrans(a: Host, b: Host, c: Host)
    requires Extends(a, b) && Extends(b, c)
    ensures Extends(a, c)
  {
  }

  lemma {:induction false} CancelAllExtends(h: Host, order: seq<SessionId>)
    ensures Extends(h, CancelAll(h, order))
    decreases |order|
  {
    hide CancelSession, Extends;
    if order == [] {
      ExtendsRefl(h);
    } else {
      CancelSessionExtends(h, order[0]);
      CancelAllExtends(CancelSession(h, order[0]).0, order[1..]);
      ExtendsTrans(h, CancelSession(h, order[0]).0, CancelAll(h, order));
    }
  }

  lemma ExtendsRefl(h: Host)
    ensures Extends(h, h)
  {
  }

  lemma SubmitExtends(h: Host, sid: SessionId, action: Action, id: ApprovalId, rid: RequestId, now: nat,
                      victim: ApprovalId, answer: ExecAnswer)
    requires MustEvict(h) ==> victim in h.pending
    ensures Extends(h, SubmitAction(h, sid, action, id, rid, now, victim, answer).0)
  {
    hide IsValid, MustEvict;
  }

  lemma ApproveExtends(h: Host, id: ApprovalId, answer: ExecAnswer)
    requires id in h.pending ==> h.pending[id].session in h.sessions
    ensures Extends(h, ApproveRequest(h, id, answer).0)
  {
  }

  lemma DenyExtends(h: Host, id: ApprovalId)
    requires id in h.pending ==>
               && h.pending[id].session in h.sessions
               && h.sessions[h.pending[id].session].state in {WaitingApproval, SessionState.Cancelled}
    ensures Extends(h, DenyRequest(h, id).0)
  {
  }

  lemma CreateExtends(h: Host, sid: SessionId)
    requires sid !in h.sessions
    ensures Extends(h, CreateSession(h, sid).0)
  {
  }

  lemma CancelActionExtends(h: Host, sid: SessionId, actionId: ActionId)
    ensures Extends(h, CancelAction(h, sid, actionId).0)
  {
  }

  lemma RestExtends(h: Host, order: seq<SessionId>, capabilities: seq<string>)
    ensures Extends(h, Stop(h, order).0) && Extends(h, Fail(h)) && Extends(h, GrantCapabilities(h, capabilities))
  {
    CancelAllExtends(h, order);
  }

  lemma StepExtends(h: Host, op: Op)
    requires Inv(h) && Legal(h, op) && Known(h)
    ensures Extends(h, Step(h, op))
  {
    hide Inv, Extends, IsOldest, FreshApproval, Enumerates, MustEvict;
    match op
    case OpCreate(sid) => CreateExtends(h, sid);
    case OpSubmit(sid, action, id, rid, now, victim, answer) =>
      OldestIsPending(h, victim);
      SubmitExtends(h, sid, action, id, rid, now, victim, answer);
    case OpApprove(id, answer) => ApproveExtends(h, id, answer);
    case OpDeny(id) =>
      PendingState(h, id);
      DenyExtends(h, id);
    case OpCancelAction(sid, actionId) => CancelActionExtends(h, sid, actionId);
    case OpCancelSession(sid) => CancelSessionExtends(h, sid);
    case OpStop(order) => RestExtends(h, order, []);
    case OpFail => RestExtends(h, [], []);
    case OpGrant(capabilities) => RestExtends(h, [], capabilities);
  }

  lemma OldestIsPending(h: Host, victim: ApprovalId)
    requires MustEvict(h) ==> IsOldest(h.pending, victim)
    ensures MustEvict(h) ==> victim in h.pending
  {
  }

  lemma PendingState(h: Host, id: ApprovalId)
    requires Inv(h)
    ensures id in h.pending ==>
              && h.pending[id].session in h.sessions
              && h.sessions[h.pending[id].session].state in {WaitingApproval, SessionState.Cancelled}
  {
  }

  /** Through every run the journal only grows and session states only move forward. */
  lemma {:induction false} RunExtends(h: Host, ops: seq<Op>)
    requires Inv(h) && LegalRun(h, ops)
    ensures Extends(h, Run(h, ops))
    decreases |ops|
  {
    hide Inv, Step, Extends;
    if ops == [] {
      ExtendsRefl(h);
    } else {
      StepKeeps(h, ops[0]);
      StepExtends(h, ops[0]);
      RunExtends(Step(h, ops[0]), ops[1..]);
      ExtendsTrans(h, Step(h, ops[0]), Run(h, ops));
    }
  }

  lemma RunStateDecides(h: Host, sid: SessionId)
    requires Inv(h) && sid in h.sessions
    ensures sid in Tally(h.book.journal).executed <==> HasRun(h.sessions[sid].state)
  {
  }

  /** A session that waits or was cancelled, and that no pending approval can release any more. */
  ghost predicate Stranded(h: Host, sid: SessionId) {
    && sid in h.sessions
    && (h.sessions[sid].state == WaitingApproval || h.sessions[sid].state == SessionState.Cancelled)
    && forall id :: id in h.pending ==> h.pending[id].session != sid
  }

  lemma SubmitStrands(h: Host, sid: SessionId, action: Action, id: ApprovalId, rid: RequestId, now: nat,
                      victim: ApprovalId, answer: ExecAnswer, stranded: SessionId)
    requires Stranded(h, stranded) && (MustEvict(h) ==> victim in h.pending)
    ensures Stranded(SubmitAction(h, sid, action, id, rid, now, victim, answer).0, stranded)
  {
    hide IsValid, MustEvict, Tell, Mark, ExecuteBook;
  }

  lemma {:induction false} CancelAllStrands(h: Host, order: seq<SessionId>, stranded: SessionId)
    requires Stranded(h, stranded)
    ensures Stranded(CancelAll(h, order), stranded)
    decreases |order|
  {
    hide Tell;
    if order != [] {
      CancelAllStrands(CancelSession(h, order[0]).0, order[1..], stranded);
    }
  }

  lemma StrandedStep(h: Host, op: Op, stranded: SessionId)
    requires Known(h) && Legal(h, op) && Stranded(h, stranded)
    ensures Stranded(Step(h, op), stranded)
  {
    hide IsOldest, FreshApproval, Enumerates, MustEvict, SubmitAction, CancelAll, Tell, ExecuteBook;
    match op
    case OpSubmit(sid, action, id, rid, now, victim, answer) =>
      OldestIsPending(h, victim);
      SubmitStrands(h, sid, action, id, rid, now, victim, answer, stranded);
    case OpStop(order) => CancelAllStrands(h, order, stranded);
    case _ =>
  }

  lemma {:induction false} StrandedRun(h: Host, ops: seq<Op>, stranded: SessionId)
    requires LegalRun(h, ops) && Stranded(h, stranded)
    ensures Stranded(Run(h, ops), stranded)
    decreases |ops|
  {
    hide Step, Stranded, Legal;
    if ops != [] {
      StrandedStep(h, ops[0], stranded);
      StrandedRun(Step(h, ops[0]), ops[1..], stranded);
    }
  }

  /** The session of an evicted approval never runs anything, whatever is called afterwards. */
  lemma EvictedNeverRuns(h: Host, op: Op, ops: seq<Op>)
    requires Inv(h) && Known(h) && Legal(h, op) && LegalRun(Step(h, op), ops)
    requires op.OpSubmit? && Parks(h, op.session, op.action) && MustEvict(h) && op.victim in h.pending
    ensures h.pending[op.victim].session !in Tally(Run(Step(h, op), ops).book.journal).executed
  {
    hide Inv, Run, LegalRun, Step;
    var evicted := h.pending[op.victim].session;
    EvictionStrands(h, op);
    StepKeeps(h, op);
    RunKeeps(Step(h, op), ops);
    StrandedRun(Step(h, op), ops, evicted);
    RunStateDecides(Run(Step(h, op), ops), evicted);
  }

  lemma EvictionStrands(h: Host, op: Op)
    requires Inv(h) && Known(h) && Legal(h, op)
    requires op.OpSubmit? && Parks(h, op.session, op.action) && MustEvict(h) && op.victim in h.pending
    ensures Stranded(Step(h, op), h.pending[op.victim].session)
  {
    hide Inv, Tell, Mark, FreshApproval, IsValid, MustEvict, IsOldest;
    VictimAlone(h, op.victim);
    SameCapacity(h, CheckBook(h.book, op.session, op.action, h.capabilities));
  }

  lemma VictimAlone(h: Host, id: ApprovalId)
    requires Inv(h) && id in h.pending
    ensures var sid := h.pending[id].session;
            && sid in h.sessions
            && (h.sessions[sid].state == WaitingApproval || h.sessions[sid].state == SessionState.Cancelled)
            && forall o :: o in h.pending && o != id ==> h.pending[o].session != sid
  {
  }

  // ---- after stop ----

  /** The host takes no more work and nothing is in flight. */
  ghost predicate Quiet(h: Host) {
    !Accepting(h.state) && AllOver(h.sessions)
  }

  /** `p` singles out executor calls or evictions, or some of both. */
  ghost predicate Rare(p: Entry -> bool) {
    forall e :: p(e) ==> e.Executed? || e.ApprovalExpired?
  }

  lemma CountMark(b: Book, e: Entry, p: Entry -> bool)
    requires !p(e)
    ensures Count(Mark(b, e).journal, p) == Count(b.journal, p)
  {
    assert Mark(b, e).journal[..|b.journal|] == b.journal;
  }

  lemma CountTell(b: Book, e: Entry, ev: AgentEvent, p: Entry -> bool)
    requires !p(e)
    ensures Count(Tell(b, e, ev).journal, p) == Count(b.journal, p)
  {
    CountMark(b, e, p);
  }

  lemma CountCancelSession(h: Host, sid: SessionId, p: Entry -> bool)
    requires Rare(p)
    ensures Count(CancelSession(h, sid).0.book.journal, p) == Count(h.book.journal, p)
  {
    hide Count, Tell;
    CountTell(h.book, SessionCancelled(sid), OnSessionCancelled(sid), p);
  }

  lemma {:induction false} CountCancelAll(h: Host, order: seq<SessionId>, p: Entry -> bool)
    requires Rare(p)
    ensures Count(CancelAll(h, order).book.journal, p) == Count(h.book.journal, p)
    decreases |order|
  {
    hide Count, CancelSession, Rare;
    if order != [] {
      CountCancelSession(h, order[0], p);
      CountCancelAll(CancelSession(h, order[0]).0, order[1..], p);
    }
  }

  /** Only submitting and granting can reach the executor or evict. */
  lemma CountOthers(h: Host, op: Op, p: Entry -> bool)
    requires Known(h) && Legal(h, op) && Rare(p) && !op.OpSubmit? && !op.OpApprove?
    ensures Count(Step(h, op).book.journal, p) == Count(h.book.journal, p)
  {
    hide Count, Tell, CancelSession, CancelAll, Enumerates;
    var b := h.book;
    match op
    case OpCreate(sid) => CountTell(b, SessionCreated(sid), OnSessionCreated(sid), p);
    case OpDeny(id) =>
      if id in h.pending {
        var x := h.pending[id];
        CountTell(b, ApprovalDenied(id, x.session, x.action), OnApprovalDenied(x.session, x.action.id), p);
      }
    case OpCancelAction(sid, actionId) => CountTell(b, ActionDenied(sid, actionId), OnActionDenied(sid, actionId), p);
    case OpCancelSession(sid) => CountCancelSession(h, sid, p);
    case OpStop(order) => CountCancelAll(h, order, p);
    case OpFail => CountTell(b, HostFailed, OnHostFailed, p);
    case OpGrant(_) =>
  }

  /** A quiet host stays quiet: nothing it can still be asked leaves a session in flight. */
  lemma QuietStays(h: Host, op: Op)
    requires Inv(h) && Legal(h, op) && Known(h) && Quiet(h)
    ensures Quiet(Step(h, op))
  {
    hide Inv, Legal, IsValid, Tell, CancelAll;
    if op.OpStop? {
      assert Stop(h, op.order).0.state == h.state || h.state == Running;
    }
  }

  lemma QuietStep(h: Host, op: Op)
    requires Inv(h) && Legal(h, op) && Known(h) && Quiet(h)
    ensures Quiet(Step(h, op)) && Executions(Step(h, op).book.journal) == Executions(h.book.journal)
  {
    hide Inv, Count, Legal, Tell;
    QuietStays(h, op);
    var p := (e: Entry) => e.Executed?;
    match op
    case OpSubmit(_, _, _, _, _, _, _) =>
    case OpApprove(id, _) =>
      if id in h.pending {
        var x := h.pending[id];
        CountTell(h.book, ApprovalGranted(id, x.session, x.action), OnApprovalGranted(x.session, x.action.id), p);
        PendingState(h, id);
      }
    case _ => CountOthers(h, op, p);
  }

  lemma {:induction false} QuietRun(h: Host, ops: seq<Op>)
    requires Inv(h) && LegalRun(h, ops) && Quiet(h)
    ensures Executions(Run(h, ops).book.journal) == Executions(h.book.journal)
    decreases |ops|
  {
    hide Inv, Step, Quiet;
    if ops != [] {
      StepKeeps(h, ops[0]);
      QuietStep(h, ops[0]);
      QuietRun(Step(h, ops[0]), ops[1..]);
    }
  }

  /** Once `stop` has returned Ok, no action of any risk runs, whatever is called afterwards. */
  lemma NothingRunsAfterStop(h: Host, order: seq<SessionId>, ops: seq<Op>)
    requires Inv(h) && Enumerates(order, h.sessions) && Stop(h, order).1.Ok?
    requires LegalRun(Stop(h, order).0, ops)
    ensures Executions(Run(Stop(h, order).0, ops).book.journal) == Executions(h.book.journal)
  {
    StopKeeps(h, order);
    CountCancelAll(h, order, (e: Entry) => e.Executed?);
    QuietRun(Stop(h, order).0, ops);
  }

  // ---- eviction ----

  lemma {:induction false} InjectiveSize(pending: map<ApprovalId, Pending>, sessions: set<SessionId>)
    requires PendingDistinct(pending)
    requires forall id :: id in pending ==> pending[id].session in sessions
    ensures |pending| <= |sessions|
    decreases |pending|
  {
    if pending != map[] {
      var id :| id in pending;
      SmallerWithout(pending, id);
      InjectiveSize(pending - {id}, sessions - {pending[id].session});
    }
  }

  /** A session that can still submit holds a place no pending approval holds. */
  lemma RoomToPark(h: Host, sid: SessionId)
    requires Inv(h) && sid in h.sessions && h.sessions[sid].state == SessionState.Ready
    ensures |h.pending| < |h.sessions| <= h.maxSessions
  {
    hide BookOk, Tally, SessionsAgree, PendingAgrees, PendingChecked, PhaseOk;
    InjectiveSize(h.pending, h.sessions.Keys - {sid});
    assert |h.sessions.Keys - {sid}| == |h.sessions| - 1;
  }

  lemma CountHit(b: Book, e: Entry, p: Entry -> bool)
    requires p(e)
    ensures Count(Mark(b, e).journal, p) == Count(b.journal, p) + 1
  {
    assert Mark(b, e).journal[..|b.journal|] == b.journal;
  }

  /** Running an action adds one executor call, and nothing else `p` may single out. */
  lemma CountExecute(b: Book, sid: SessionId, action: Action, ok: bool, p: Entry -> bool)
    requires Rare(p)
    ensures Count(ExecuteBook(b, sid, action, ok).journal, p) == Count(b.journal, p) + (if p(Executed(sid, action)) then 1 else 0)
  {
    hide Count, Mark, Tell;
    var b1 := Tell(b, ActionRequested(sid, action), OnActionRequested(sid, action.id));
    CountTell(b, ActionRequested(sid, action), OnActionRequested(sid, action.id), p);
    if p(Executed(sid, action)) { CountHit(b1, Executed(sid, action), p); } else { CountMark(b1, Executed(sid, action), p); }
    var b2 := Mark(b1, Executed(sid, action));
    CountTell(b2, ActionFailed(sid, action), OnActionFailed(sid, action.id), p);
    CountTell(b2, ActionCompleted(sid, action), OnActionCompleted(sid, action.id), p);
    CountTell(Tell(b2, ActionCompleted(sid, action), OnActionCompleted(sid, action.id)),
              SessionCompleted(sid), OnSessionCompleted(sid), p);
  }

  /** Granting runs exactly the parked actions whose session still waits; the host state plays no part. */
  lemma GrantRunsIffWaiting(h: Host, id: ApprovalId, answer: ExecAnswer)
    requires Inv(h) && Known(h)
    ensures Executions(ApproveRequest(h, id, answer).0.book.journal)
         == Executions(h.book.journal)
          + (if id in h.pending && h.sessions[h.pending[id].session].state == WaitingApproval then 1 else 0)
  {
    hide Inv, Count, Tell, ExecuteBook;
    var p := (e: Entry) => e.Executed?;
    if id in h.pending {
      var x := h.pending[id];
      CountTell(h.book, ApprovalGranted(id, x.session, x.action), OnApprovalGranted(x.session, x.action.id), p);
      CountExecute(Tell(h.book, ApprovalGranted(id, x.session, x.action), OnApprovalGranted(x.session, x.action.id)),
                   x.session, x.action, answer.Ok?, p);
    }
  }

  lemma ApproveEvictsNone(h: Host, id: ApprovalId, answer: ExecAnswer)
    requires Known(h)
    ensures Evictions(ApproveRequest(h, id, answer).0.book.journal) == Evictions(h.book.journal)
  {
    hide Count, Tell, ExecuteBook;
    var p := (e: Entry) => e.ApprovalExpired?;
    if id in h.pending {
      var x := h.pending[id];
      CountTell(h.book, ApprovalGranted(id, x.session, x.action), OnApprovalGranted(x.session, x.action.id), p);
      CountExecute(Tell(h.book, ApprovalGranted(id, x.session, x.action), OnApprovalGranted(x.session, x.action.id)),
                   x.session, x.action, answer.Ok?, p);
    }
  }

  /** Submitting `action` in session `sid` parks it. */
  predicate Parks(h: Host, sid: SessionId, action: Action) {
    && Accepting(h.state)
    && sid in h.sessions && h.sessions[sid].state == SessionState.Ready
    && IsValid(h.capabilities, action) && NeedsConfirmation(action.risk)
  }

  /** The evictions a submission causes: one if it parks while the pending map is full, else none. */
  lemma SubmitEvicts(h: Host, sid: SessionId, action: Action, id: ApprovalId, rid: RequestId, now: nat,
                     victim: ApprovalId, answer: ExecAnswer)
    requires MustEvict(h) ==> victim in h.pending
    ensures Evictions(SubmitAction(h, sid, action, id, rid, now, victim, answer).0.book.journal)
         == Evictions(h.book.journal) + (if Parks(h, sid, action) && MustEvict(h) then 1 else 0)
  {
    hide Count, Tell, Mark, ExecuteBook, IsValid, MustEvict;
    var p := (e: Entry) => e.ApprovalExpired?;
    var valid := IsValid(h.capabilities, action);
    CountMark(h.book, CapabilityChecked(sid, action, h.capabilities, valid), p);
    CountMark(Mark(h.book, CapabilityChecked(sid, action, h.capabilities, valid)), PolicyChecked(sid, action), p);
    var b := CheckBook(h.book, sid, action, h.capabilities);
    CountTell(b, ActionDenied(sid, action.id), OnActionDenied(sid, action.id), p);
    CountExecute(b, sid, action, answer.Ok?, p);
    CountTell(b, ApprovalRequested(id, sid, action, now), OnApprovalRequested(sid, action.id), p);
    SameCapacity(h, b);
    if MustEvict(h) {
      CountHit(Tell(b, ApprovalRequested(id, sid, action, now), OnApprovalRequested(sid, action.id)),
               ApprovalExpired(victim, h.pending[victim].session, id), p);
    }
  }

  lemma SameCapacity(h: Host, b: Book)
    ensures MustEvict(h.(book := b)) == MustEvict(h)
  {
  }

  lemma EvictionFreeStep(h: Host, op: Op)
    requires Inv(h) && Known(h) && Legal(h, op) && h.maxSessions <= Max(h.maxPending, 1)
    ensures Evictions(Step(h, op).book.journal) == Evictions(h.book.journal)
  {
    hide Inv, Count, FreshApproval, IsValid;
    match op
    case OpSubmit(sid, action, id, rid, now, victim, answer) =>
      SubmitEvicts(h, sid, action, id, rid, now, victim, answer);
      if sid in h.sessions && h.sessions[sid].state == SessionState.Ready {
        RoomToPark(h, sid);
      }
    case OpApprove(id, answer) => ApproveEvictsNone(h, id, answer);
    case _ => CountOthers(h, op, (e: Entry) => e.ApprovalExpired?);
  }

  lemma {:induction false} EvictionFreeRun(h: Host, ops: seq<Op>)
    requires Inv(h) && LegalRun(h, ops) && h.maxSessions <= Max(h.maxPending, 1)
    ensures Evictions(Run(h, ops).book.journal) == Evictions(h.book.journal)
    decreases |ops|
  {
    hide Inv, Step, Count, Extends;
    if ops != [] {
      StepKeeps(h, ops[0]);
      EvictionFreeStep(h, ops[0]);
      StepCaps(h, ops[0]);
      EvictionFreeRun(Step(h, ops[0]), ops[1..]);
    }
  }

  lemma StepCaps(h: Host, op: Op)
    requires Inv(h) && Legal(h, op) && Known(h)
    ensures Step(h, op).maxSessions == h.maxSessions && Step(h, op).maxPending == h.maxPending
  {
    hide Inv, Step, Legal;
    StepExtends(h, op);
  }
}
