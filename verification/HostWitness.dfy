/**
 Runs that exist: a host whose pending map fills up and evicts, a failed host and a host
 without capabilities that still execute, a shutdown that runs unasked, a session left in
 Planning, one that holds its place after its end, a host that cannot be stopped. With the theorems over all runs they give exact conditions.
 */
module HostWitness {
  import opened Prelude
  import opened Errors
  import opened Actions
  import opened Sessions
  import opened Capabilities
  import opened Validation
  import opened HostModel
  import opened HostLedger
  import opened HostInvariant
  import opened HostRuns

  const SUSPEND := NewAction(0, "s", SystemSuspend, "r")
  const SUSPEND_CAPABILITIES := ["system.suspend"]

  lemma SuspendIsValid()
    ensures IsValid(SUSPEND_CAPABILITIES, SUSPEND) && NeedsConfirmation(SUSPEND.risk)
  {
    hide LooksLikeShell;
    PolicyRefusesNothing(SystemSuspend);
  }

  lemma {:induction false} RunAppend(h: Host, ops: seq<Op>, op: Op)
    requires LegalRun(h, ops) && Known(Run(h, ops)) && Legal(Run(h, ops), op)
    ensures LegalRun(h, ops + [op]) && Run(h, ops + [op]) == Step(Run(h, ops), op)
    decreases |ops|
  {
    hide Step, Legal;
    if ops == [] {
      assert LegalRun(Step(h, op), []);
      assert ([] + [op])[1..] == [];
      assert (ops + [op])[0] == op;
    } else {
      assert (ops + [op])[1..] == ops[1..] + [op];
      RunAppend(Step(h, ops[0]), ops[1..], op);
    }
  }

  /** Sessions and approvals 0 .. n-1 exist, all approvals are pending and equally old. */
  ghost predicate Filled(h: Host, n: nat) {
    && Accepting(h.state)
    && h.capabilities == SUSPEND_CAPABILITIES
    && |h.sessions| == n && (forall s :: s in h.sessions <==> 0 <= s < n)
    && |h.pending| == n && (forall id :: id in h.pending <==> 0 <= id < n)
    && (forall id :: id in h.pending ==>
          h.pending[id].createdAt == 0 && h.pending[id].session == id && h.pending[id].action == SUSPEND)
    && (forall s :: s in h.sessions ==> h.sessions[s].state == WaitingApproval)
    && (forall id :: id in Tally(h.book.journal).requested ==> id < n)
    && Evictions(h.book.journal) == 0
  }

  function Submission(n: nat): Op {
    OpSubmit(n, SUSPEND, n, n, 0, 0, Err(Ipc))
  }

  /** The host just before session `n` submits. */
  lemma Created(h: Host, n: nat)
    requires Inv(h) && Filled(h, n) && n < h.maxSessions
    ensures Legal(h, OpCreate(n)) && Known(h)
    ensures var h1 := Step(h, OpCreate(n));
            && Inv(h1) && Known(h1) && Legal(h1, Submission(n))
            && Parks(h1, n, SUSPEND)
            && Evictions(h1.book.journal) == 0
            && h1.maxSessions == h.maxSessions && h1.maxPending == h.maxPending
            && h1.pending == h.pending
            && (forall id :: id in Tally(h1.book.journal).requested ==> id < n)
  {
    hide Inv, IsValid, Tell, Tally, Count;
    KnownSessions(h);
    StepKeeps(h, OpCreate(n));
    var h1 := Step(h, OpCreate(n));
    KnownSessions(h1);
    CountOthers(h, OpCreate(n), (e: Entry) => e.ApprovalExpired?);
    SuspendIsValid();
    BookOf(h);
    assert Justified(Tally(h.book.journal), SessionCreated(n)) by { NewSessionJustified(h, n); }
    TellKeeps(h.book, SessionCreated(n), OnSessionCreated(n));
    FreshIffUnrequested(h1.book.journal, n);
  }

  lemma BookOf(h: Host)
    requires Inv(h)
    ensures BookOk(h.book)
  {
  }

  lemma NewSessionJustified(h: Host, sid: SessionId)
    requires Inv(h) && sid !in h.sessions
    ensures Justified(Tally(h.book.journal), SessionCreated(sid))
  {
  }

  /** Submitting to a host with room: one more approval is pending, nothing is evicted. */
  lemma Submitted(h: Host, n: nat)
    requires Inv(h) && Filled(h, n) && n < h.maxSessions && (n < h.maxPending || n == 0)
    ensures Legal(h, OpCreate(n)) && Known(h)
    ensures var h1 := Step(h, OpCreate(n));
            && Known(h1) && Legal(h1, Submission(n))
            && Inv(Step(h1, Submission(n))) && Filled(Step(h1, Submission(n)), n + 1)
            && Step(h1, Submission(n)).maxSessions == h.maxSessions && Step(h1, Submission(n)).maxPending == h.maxPending
  {
    hide Inv, IsValid, Tally, Count, Step, Legal, Parks;
    Created(h, n);
    var h1 := Step(h, OpCreate(n));
    StepKeeps(h1, Submission(n));
    SubmissionEvicts(h1, n);
    var h2 := Step(h1, Submission(n));
    ParkedShape(h, h1, n);
    GrowsByOne(h.pending, n, Pending(n, SUSPEND, n, 0));
    GrowsByOne(h.sessions, n, h2.sessions[n]);
    ParkedTally(h1, n);
  }

  /** What submitting does to the maps of a host with room. */
  lemma ParkedShape(h: Host, h1: Host, n: nat)
    requires Known(h) && Legal(h, OpCreate(n)) && h1 == Step(h, OpCreate(n))
    requires Known(h1) && Legal(h1, Submission(n)) && Parks(h1, n, SUSPEND) && !MustEvict(h1)
    requires Accepting(h.state) && |h.sessions| < h.maxSessions
    ensures var h2 := Step(h1, Submission(n));
            && n in h2.sessions && h2.sessions == h.sessions[n := h2.sessions[n]] && h2.sessions[n].state == WaitingApproval
            && h2.pending == h.pending[n := Pending(n, SUSPEND, n, 0)]
            && Accepting(h2.state) && h2.capabilities == h.capabilities
            && h2.maxSessions == h.maxSessions && h2.maxPending == h.maxPending
  {
    hide IsValid, Tell, Mark, FreshApproval;
  }

  lemma ParkedTally(h: Host, n: nat)
    requires Inv(h) && Known(h) && Legal(h, Submission(n)) && Parks(h, n, SUSPEND) && !MustEvict(h)
    ensures Tally(Step(h, Submission(n)).book.journal).requested.Keys == Tally(h.book.journal).requested.Keys + {n}
  {
    hide IsValid, Inv;
    var b := h.book;
    var b1 := CheckBook(b, n, SUSPEND, h.capabilities);
    var e := CapabilityChecked(n, SUSPEND, h.capabilities, true);
    Append(b.journal, e);
    Append(b.journal + [e], PolicyChecked(n, SUSPEND));
    Append(b1.journal, ApprovalRequested(n, n, SUSPEND, 0));
  }

  function Empty(maxSessions: nat, maxPending: nat): Host {
    StartHost(SUSPEND_CAPABILITIES, maxSessions, maxPending)
  }

  /** Any number of sessions within both caps can have an approval pending at once. */
  lemma {:induction false} Fill(n: nat, maxSessions: nat, maxPending: nat) returns (ops: seq<Op>)
    requires n <= maxSessions && n <= Max(maxPending, 1)
    ensures LegalRun(Empty(maxSessions, maxPending), ops)
    ensures var h := Run(Empty(maxSessions, maxPending), ops);
            Inv(h) && Filled(h, n) && h.maxSessions == maxSessions && h.maxPending == maxPending
  {
    hide Inv, Step, Legal;
    if n == 0 {
      ops := [];
      EmptyIsFilled(maxSessions, maxPending);
    } else {
      var h0 := Empty(maxSessions, maxPending);
      var before := Fill(n - 1, maxSessions, maxPending);
      var h := Run(h0, before);
      Submitted(h, n - 1);
      RunAppend(h0, before, OpCreate(n - 1));
      RunAppend(h0, before + [OpCreate(n - 1)], Submission(n - 1));
      ops := before + [OpCreate(n - 1)] + [Submission(n - 1)];
    }
  }

  lemma EmptyIsFilled(maxSessions: nat, maxPending: nat)
    ensures Inv(Empty(maxSessions, maxPending)) && Filled(Empty(maxSessions, maxPending), 0)
  {
    StartInv(SUSPEND_CAPABILITIES, maxSessions, maxPending);
  }

  /** Some run of a host with these caps evicts an approval. */
  ghost predicate CanEvict(maxSessions: nat, maxPending: nat) {
    exists capabilities, ops, h ::
      Reached(h, capabilities, maxSessions, maxPending, ops) && Evictions(h.book.journal) > 0
  }

  lemma Overflow(maxSessions: nat, maxPending: nat)
    requires maxSessions > Max(maxPending, 1)
    ensures CanEvict(maxSessions, maxPending)
  {
    hide Inv, Step, Legal, Count;
    var n := Max(maxPending, 1);
    var h0 := Empty(maxSessions, maxPending);
    var before := Fill(n, maxSessions, maxPending);
    var h := Run(h0, before);
    Created(h, n);
    RunAppend(h0, before, OpCreate(n));
    var h1 := Step(h, OpCreate(n));
    RunAppend(h0, before + [OpCreate(n)], Submission(n));
    SubmissionEvicts(h1, n);
    assert Reached(Step(h1, Submission(n)), SUSPEND_CAPABILITIES, maxSessions, maxPending,
                   before + [OpCreate(n)] + [Submission(n)]);
  }

  lemma SubmissionEvicts(h: Host, n: nat)
    requires Known(h) && Legal(h, Submission(n)) && Parks(h, n, SUSPEND)
    ensures Evictions(Step(h, Submission(n)).book.journal) == Evictions(h.book.journal) + (if MustEvict(h) then 1 else 0)
  {
    SubmitEvicts(h, n, SUSPEND, n, n, 0, 0, Err(Ipc));
  }

  /**
   Eviction is reachable exactly when more sessions are allowed than pending approvals (a cap
   of 0 acts like 1). With the defaults, 64 and 64, no approval is ever evicted.
   */
  lemma EvictionReachableIff(maxSessions: nat, maxPending: nat)
    ensures CanEvict(maxSessions, maxPending) <==> maxSessions > Max(maxPending, 1)
  {
    hide Inv, Count, Run, LegalRun;
    if maxSessions > Max(maxPending, 1) {
      Overflow(maxSessions, maxPending);
    } else {
      forall capabilities, ops, h | Reached(h, capabilities, maxSessions, maxPending, ops)
        ensures Evictions(h.book.journal) == 0
      {
        StartInv(capabilities, maxSessions, maxPending);
        EvictionFreeRun(StartHost(capabilities, maxSessions, maxPending), ops);
        EmptyJournal(capabilities, maxSessions, maxPending);
      }
    }
  }

  lemma EmptyJournal(capabilities: seq<string>, maxSessions: nat, maxPending: nat)
    ensures Evictions(StartHost(capabilities, maxSessions, maxPending).book.journal) == 0
  {
  }

  /**
   Failing the host does not withdraw what is parked: after `fail` an approval can still be
   granted and its action runs. `GrantRunsIffWaiting` says exactly when.
   */
  lemma FailedHostStillExecutes() returns (h: Host)
    ensures Reachable(h) && h.state == HostState.Failed && 0 in h.pending && Known(h)
    ensures Executions(ApproveRequest(h, 0, Ok(true)).0.book.journal) == Executions(h.book.journal) + 1
  {
    hide Inv, Step, Count;
    var h0 := Empty(1, 1);
    var before := Fill(1, 1, 1);
    var h1 := Run(h0, before);
    KnownSessions(h1);
    RunAppend(h0, before, OpFail);
    h := Fail(h1);
    assert Step(h1, OpFail) == h by { FailStep(h1); }
    FailKeeps(h1);
    KnownSessions(h);
    assert Reached(h, SUSPEND_CAPABILITIES, 1, 1, before + [OpFail]);
    GrantRunsIffWaiting(h, 0, Ok(true));
  }

  lemma FailStep(h: Host)
    requires Known(h)
    ensures Legal(h, OpFail) && Step(h, OpFail) == Fail(h)
  {
  }

  /**
   A grant validates nothing again: an action parked before every capability was withdrawn
   still runs. `GrantRunsInvalidIff` says exactly when.
   */
  lemma WithdrawnStillRuns() returns (h: Host)
    ensures Reachable(h) && h.capabilities == [] && 0 in h.pending && Known(h)
    ensures !IsValid(h.capabilities, h.pending[0].action)
    ensures Executions(ApproveRequest(h, 0, Ok(true)).0.book.journal) == Executions(h.book.journal) + 1
  {
    hide Inv, Step, Count, IsValid;
    SuspendNeedsCapability();
    var h0 := Empty(1, 1);
    var before := Fill(1, 1, 1);
    var h1 := Run(h0, before);
    KnownSessions(h1);
    RunAppend(h0, before, OpGrant([]));
    h := GrantCapabilities(h1, []);
    assert Step(h1, OpGrant([])) == h by { GrantStep(h1); }
    GrantKeeps(h1, []);
    KnownSessions(h);
    assert Reached(h, SUSPEND_CAPABILITIES, 1, 1, before + [OpGrant([])]);
    GrantRunsIffWaiting(h, 0, Ok(true));
  }

  lemma SuspendNeedsCapability()
    ensures !IsValid([], SUSPEND)
  {
    assert "system.suspend" in SUSPEND.capabilities;
  }

  lemma GrantStep(h: Host)
    requires Known(h)
    ensures Legal(h, OpGrant([])) && Step(h, OpGrant([])) == GrantCapabilities(h, [])
  {
  }

  /** A shutdown that says of itself that it is harmless. */
  const RELABELLED := WithRisk(NewAction(0, "s", SystemShutdown(0), "r"), Low)
  const SHUTDOWN_CAPABILITIES := ["system.shutdown"]

  lemma RelabelledIsValid()
    ensures IsValid(SHUTDOWN_CAPABILITIES, RELABELLED) && !NeedsConfirmation(RELABELLED.risk)
    ensures NeedsConfirmation(ClassifiedRisk(RELABELLED.variant))
  {
    hide LooksLikeShell;
    PolicyRefusesNothing(SystemShutdown(0));
  }

  /**
   The table calls a shutdown Critical, yet one relabelled Low runs in a host where nothing
   was ever granted. `TableBypassedIff` says exactly when this happens.
   */
  lemma RelabelledRunsUnasked() returns (h: Host, i: nat)
    ensures Reachable(h) && i < |h.book.journal| && h.book.journal[i] == Executed(0, RELABELLED)
    ensures NeedsConfirmation(ClassifiedRisk(RELABELLED.variant))
    ensures forall k :: 0 <= k < |h.book.journal| ==> !h.book.journal[k].ApprovalGranted?
    ensures h.state == Running && h.maxSessions == 1 && h.sessions.Keys == {0}
    ensures h.sessions[0].state == Completed && h.sessions[0].tokens == {RELABELLED.id}
  {
    hide IsValid, Step, Legal;
    RelabelledIsValid();
    var h0 := StartHost(SHUTDOWN_CAPABILITIES, 1, 1);
    var create, submit := OpCreate(0), OpSubmit(0, RELABELLED, 0, 0, 0, 0, Ok(true));
    assert LegalRun(h0, []) && Run(h0, []) == h0;
    FirstSession(SHUTDOWN_CAPABILITIES);
    RunAppend(h0, [], create);
    var h1 := Step(h0, create);
    RelabelledStep(h1);
    RunAppend(h0, [] + [create], submit);
    h := Step(h1, submit);
    i := 4;
    assert Reached(h, SHUTDOWN_CAPABILITIES, 1, 1, [] + [create] + [submit]);
  }

  /** A host with one fresh session and room for no other. */
  ghost predicate HasFirst(h: Host) {
    && h.state == Running && h.pending == map[] && h.maxSessions == 1
    && h.sessions.Keys == {0} && h.sessions[0].state == SessionState.Ready && h.sessions[0].tokens == {}
    && h.book.journal == [SessionCreated(0)]
  }

  lemma FirstSession(capabilities: seq<string>)
    ensures var h0, create := StartHost(capabilities, 1, 1), OpCreate(0);
            && Known(h0) && Legal(h0, create)
            && HasFirst(Step(h0, create)) && Step(h0, create).capabilities == capabilities
  {
  }

  lemma RelabelledStep(h: Host)
    requires HasFirst(h) && h.capabilities == SHUTDOWN_CAPABILITIES
    ensures var submit := OpSubmit(0, RELABELLED, 0, 0, 0, 0, Ok(true));
            && Known(h) && Legal(h, submit)
            && var j := Step(h, submit).book.journal;
               && |j| > 4 && j[4] == Executed(0, RELABELLED)
               && forall k :: 0 <= k < |j| ==> !j[k].ApprovalGranted?
    ensures var h' := Step(h, OpSubmit(0, RELABELLED, 0, 0, 0, 0, Ok(true)));
            && h'.state == Running && h'.maxSessions == 1 && h'.sessions.Keys == {0}
            && h'.sessions[0].state == Completed && h'.sessions[0].tokens == {RELABELLED.id}
  {
    hide IsValid;
    RelabelledIsValid();
  }

  /** An ended session still counts: a host whose only session has completed takes no other. */
  lemma EndedSessionsHoldTheirPlace() returns (h: Host)
    ensures Reachable(h) && Accepting(h.state)
    ensures forall s :: s in h.sessions ==> IsTerminal(h.sessions[s].state)
    ensures 1 !in h.sessions && CreateSession(h, 1).1 == Err(Internal)
  {
    hide Reachable;
    var i: nat;
    h, i := RelabelledRunsUnasked();
    assert |h.sessions.Keys| == |h.sessions|;
  }

  /** Cancelling an action that has completed succeeds, and records it as denied. */
  lemma CompletedActionIsCancelled() returns (h: Host)
    ensures Reachable(h) && 0 in h.sessions && h.sessions[0].state == Completed
    ensures CancelAction(h, 0, 0).1 == Ok(true)
    ensures CancelAction(h, 0, 0).0.book.journal == h.book.journal + [ActionDenied(0, 0)]
  {
    hide Reachable;
    var i: nat;
    h, i := RelabelledRunsUnasked();
  }

  /** A reachable host whose one session was refused and rests in Planning. */
  lemma RefusedRestsInPlanning() returns (h: Host)
    ensures Reachable(h) && 0 in h.sessions && h.sessions[0].state == Planning
  {
    hide IsValid, Step, Legal;
    var h0 := StartHost([], 1, 1);
    var create, submit := OpCreate(0), Submission(0);
    assert LegalRun(h0, []) && Run(h0, []) == h0;
    FirstSession([]);
    RunAppend(h0, [], create);
    var h1 := Step(h0, create);
    RefusedStep(h1);
    RunAppend(h0, [] + [create], submit);
    h := Step(h1, submit);
    assert Reached(h, [], 1, 1, [] + [create] + [submit]);
  }

  lemma RefusedStep(h: Host)
    requires HasFirst(h) && h.capabilities == []
    ensures Known(h) && Legal(h, Submission(0))
    ensures var h' := Step(h, Submission(0)); 0 in h'.sessions && h'.sessions[0].state == Planning
  {
    hide IsValid;
    SuspendNeedsCapability();
  }

  /** A host that never created a session cannot be stopped. */
  lemma FreshHostCannotStop(capabilities: seq<string>, maxSessions: nat, maxPending: nat)
    ensures var h := StartHost(capabilities, maxSessions, maxPending);
            Reachable(h) && Stop(h, []).1 == Err(Internal)
  {
    var h := StartHost(capabilities, maxSessions, maxPending);
    assert Reached(h, capabilities, maxSessions, maxPending, []);
  }
}
