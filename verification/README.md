# A model of the Aether agent runtime

Aether OS lets an agent propose and carry out actions on a machine. This project models the
parts of its runtime that decide what may happen, and proves what every run of them keeps:

- **The approval-gated host** (`HostModel`, `HostLedger`, `HostInvariant`, `HostRuns`,
  `HostGate`, `HostHistory`, `HostReplies`, `HostWitness`, `AgentRuntimeHost`, with `Validation`, `Capabilities`, `Sessions`, `Actions`, `Errors`). The host
  is a state machine over sessions and pending approvals. Its journal is the audit history in
  typed form plus the calls that reach the executor; a check is recorded with the capabilities it
  was made under. `HostLedger` says what makes a journal
  sound, without mentioning the host; `HostInvariant` shows that every operation keeps it sound;
  `AgentRuntimeHost` is the object with its field-by-field updates, proved to refine the machine.
- **The task graph** (`TaskGraphs`, `TaskGraphClass`, `Scheduling`, `AgentStatuses`).
- **Audit redaction and bounded logs** (`Redaction`, `AuditLogs`, `BoundedLogs`).
- **Cross-device delivery** (`Delivery`).
- **Retry and recovery** (`Backoff`, `RetryPolicies`, `Recovery`) and the
  **proposal pipeline** (`Proposals`, `Pipeline`), and a plan's risk (`Plans`).
- **Two kernels**: the FNV-1a checksum (`Fnv`) and rectangle clipping (`Framebuffer`).

`dafny verify dfyconfig.toml` checks the whole project.

## What the environment decides

Fresh session, approval, request and action ids, clock readings, the executor's answers, which
of several equally old approvals a hash map yields first, and the order in which `stop` meets
the sessions are parameters of the operations. Theorems hold for every choice. Session and
approval ids are assumed new when generated. Error and note texts are reduced to their kind.

## Where code and documentation differ

The model follows the code.

- A failed validation tries to move its session from Planning to Failed, which the lifecycle table
  forbids; the session stays in Planning (`HostWitness.RefusedRestsInPlanning`,
  `HostGate.RefusedNeverRuns`).
- `approve_request` does not look at the host state: a failed host still executes what is parked
  (`HostWitness.FailedHostStillExecutes`, `HostRuns.GrantRunsIffWaiting`).
- A grant validates nothing again: what was parked still runs after its capability was withdrawn
  (`HostWitness.WithdrawnStillRuns`, `HostGate.GrantRunsInvalidIff`).
- `stop` is refused by a failed host and by one that never had a session
  (`HostWitness.FreshHostCannotStop`, `HostGate.StopErrsIff`, `HostGate.FailedForever`).
- The risk table is documented as beyond override, but the gate reads the risk an action carries
  (`HostWitness.RelabelledRunsUnasked`, `HostGate.TableBypassedIff`, `HostGate.TableRiskIsGated`).
- Comments in the table call power always critical and a policy reload medium; suspending and
  reloading are rated High (`HostGate.GraveIsRisky`).
- The session cap is documented as a bound on active sessions that lets older ones be evicted; no
  session is ever removed (`HostWitness.EndedSessionsHoldTheirPlace`, `HostHistory.CreateErrsIff`).
- `cancel_action` is documented to signal the action; tokens exist only once it has run
  (`HostWitness.CompletedActionIsCancelled`, `HostHistory.CancelActionTooLate`).
- Redaction is documented to remove sensitive content; a value is hidden only up to its first
  delimiter, so a quoted one not at all (`Redaction.QuotedPasswordLeaks`, `Redaction.SecretHiddenIff`).
- Inserting a task is documented to be rejected if it would create a cycle; it is rejected whenever
  a live task still names the id (`TaskGraphs.FalseAlarm`, `TaskGraphs.CycleReportGenuineIff`).
- A policy without a group is documented to have a per-task breaker; it has none
  (`RetryPolicies.UngroupedTaskIsRetried`, `RetryPolicies.NoGroupNoBreaker`); what a breaker takes is
  said exactly by `RetryPolicies.BreaksIff`.
- After failure n, `decide` answers the delay documented for retry n + 1
  (`RetryPolicies.FirstRetryWaitsTwice`, `RetryPolicies.RetryDelayDocumentedIff`).
- A proposal's risk is documented to be at least its kind's default; power control is the exception
  (`Proposals.MinRiskIsDefaultIff`, `Pipeline.ConsentExceeded`, `Pipeline.ConsentCoversActionIff`).
- A plan asks for approval by the greatest of its steps' risk words, compared as text, where low
  comes after critical (`Plans.CriticalStepUnasked`, `Plans.AsksApprovalIff`).
- Running a proposal asks for no consent and no validation; the risk gate needs both steps before
  it (`Pipeline.UnvalidatedProposalSlipsThrough`, `Pipeline.TriageAloneIff`).

## Model

| member | source | states |
|---|---|---|
| HostGate.GateOverRuns | agent/aether-agent-runtime/src/host.rs:434-837 | In every reachable host, an executed action carrying risk High or Critical was first checked, by a submission of the run that wrote that check, and found valid under the capabilities the host had at that submission, then parked, then granted, in that order and before it ran; its approval is nowhere denied or evicted, its session nowhere cancelled, and nothing else ran in that session |
| HostGate.ExecutedWasValidInForce | agent/aether-agent-runtime/src/host.rs:446-478 | In every reachable host, an executed action of any risk has an earlier check, written by a submission of the run, that found it valid under the capabilities the host had at that submission |
| HostGate.ChecksInForce | agent/aether-agent-runtime/src/host.rs:446-462 | Every check at every position of the journal of any run was written there by one of its submissions, of that session and action, under the capabilities the host had just before it, and records the validator's verdict on them |
| HostGate.GrantRunsInvalidIff | agent/aether-agent-runtime/src/host.rs:580-611 | Granting validates nothing again: it runs an action that is invalid under the present capabilities exactly when its session still waits and a capability it asks for has been withdrawn since |
| HostGate.ParkedInvalidIff | agent/aether-agent-runtime/src/host.rs:480-541 | A parked action can have become invalid only by losing a capability it asks for |
| HostGate.ConsentFollowsCarriedRisk | agent/aether-agent-runtime/src/action.rs:337-340 | In every reachable host, an executed action was requested and granted beforehand if and only if the risk it carries is High or Critical |
| HostGate.TableBypassedIff | agent/aether-agent-runtime/src/host.rs:480-551 | In every reachable host, a valid submission of an action the table rates High or Critical reaches the executor without consent if and only if it carries a risk other than High and Critical |
| HostGate.NewActionParksIff | agent/aether-agent-runtime/src/action.rs:386-458 | In every reachable host that accepts work, a valid action as the constructor builds it, submitted to a ready session, parks unexecuted exactly when it deletes a file, suspends, reboots, shuts down, seals or unseals a credential or reloads the policy; every other one runs at once, unasked |
| HostGate.GraveIsRisky | agent/aether-agent-runtime/src/action.rs:386-458 | The table rates rebooting and shutting down Critical, deleting a file, suspending, sealing, unsealing and reloading the policy High, and nothing else either |
| HostGate.TableRiskIsGated | agent/aether-agent-runtime/src/action.rs:386-458 | Executed actions that carry their table risk, as the constructor builds them, had consent exactly when the table rates them High or Critical |
| HostGate.SubmitRunsIff | agent/aether-agent-runtime/src/host.rs:434-551 | A submission calls the executor exactly when the host accepts work, the session is Ready, the action is valid and its carried risk needs no confirmation |
| HostReplies.SubmitReplies | agent/aether-agent-runtime/src/host.rs:434-551 | Which error a submission answers, each exactly when; a parked action answers its request id, the approval id now pending for it, no success and the waiting state; an executed one answers its request and action ids, success exactly when the executor answered true, the executor's error if it failed, and the state its session is left in |
| HostReplies.ApproveReplies | agent/aether-agent-runtime/src/host.rs:580-611 | A grant answers nothing exactly for an unknown approval, a session error exactly when the session no longer waits, and otherwise as an executed submission does, under the parked action's request id |
| HostReplies.ReplyAcrossPark | agent/aether-agent-runtime/src/host.rs:480-611 | From submission to grant, whatever is called between: the pending entry is the action, session and request id submitted, and the grant's reply carries that request id, that action and the executor's answer |
| HostReplies.GrantMirrorsSubmit | agent/aether-agent-runtime/src/host.rs:575-579 | A grant answers exactly what the submission would have, had the action needed no confirmation |
| HostReplies.DenyReplies | agent/aether-agent-runtime/src/host.rs:616-652 | A denial answers true exactly for a pending approval, which it removes; its session ends Cancelled with one more error |
| HostReplies.CancelReplies | agent/aether-agent-runtime/src/host.rs:780-837 | Cancelling a session answers true exactly while it has not ended, false once it has, NotFound if unknown, and clears its tokens; cancelling an action answers true exactly when its token is held, and takes it away |
| HostReplies.CreateReplies | agent/aether-agent-runtime/src/host.rs:349-378 | Creation succeeds exactly when the host accepts work and is below its cap; the session is Ready, numbered next and has counted nothing |
| HostReplies.SubmitRecords | agent/aether-agent-runtime/src/host.rs:446-551 | The exact journal entries of a submission on each way: refused, parked, parked with eviction, executed with either answer |
| HostReplies.OthersRecord | agent/aether-agent-runtime/src/host.rs:580-837 | The exact journal entries of granting, denying, creating, cancelling and failing |
| HostGate.StopErrsIff | agent/aether-agent-runtime/src/host.rs:917-929 | Over reachable hosts stop errs, changing nothing, exactly when the host has failed or no session was ever created; the latter, without failure, is the same as being still Ready |
| HostGate.FailedForever | agent/aether-agent-runtime/src/host.rs:932-941 | A failed host stays failed through every run, so stop errs ever after |
| HostRuns.ReachableInv | agent/aether-agent-runtime/src/host.rs:349-941 | Every host reached by any legal sequence of operations satisfies the whole invariant: sound journal, bus in step, pending approvals, sessions and ledger agree, caps hold |
| HostRuns.OneShotSessions | agent/aether-agent-runtime/src/host.rs:349-378 | Sessions rest only in Ready, Planning, WaitingApproval or an ended state and run at most one action; sessions created equal sessions known, stay within the cap, and bound the actions executed |
| HostRuns.PendingApprovals | agent/aether-agent-runtime/src/host.rs:480-541 | Pending approvals belong to pairwise different known sessions that wait or were cancelled, and never exceed their cap (a cap of 0 holds one) |
| HostRuns.ConservationOverRuns | agent/aether-agent-runtime/src/host.rs:499-650 | Approvals parked = granted + denied + evicted + still pending; the bus carries exactly the announced journal entries in order and the event counter is their number |
| HostRuns.EvictedIsOldest | agent/aether-agent-runtime/src/host.rs:657-679 | Whatever was evicted was at least as old as every other approval open at that moment, the newcomer aside |
| HostRuns.RunExtends | agent/aether-agent-runtime/src/host.rs:976-1043 | Through any run the journal only grows, no session is forgotten, and resting states only move forward: ended states never change, Planning can only be cancelled, WaitingApproval can only end |
| HostGate.RefusedNeverRuns | agent/aether-agent-runtime/src/host.rs:463-479 | A submission to a ready session that fails validation leaves it in Planning (the move to Failed is swallowed); whatever is called later it stays there or is cancelled, and never runs anything |
| HostRuns.EvictedNeverRuns | agent/aether-agent-runtime/src/host.rs:657-679 | The session of an evicted approval never runs anything, whatever is called afterwards |
| HostHistory.WaitsInVainIff | agent/aether-agent-runtime/src/host.rs:657-679 | In every reachable host a session in WaitingApproval has no pending approval if and only if its approval was evicted |
| HostHistory.ReachableParks | agent/aether-agent-runtime/src/host.rs:480-652 | In every reachable host each session asked for approval at most once and never while Ready or Planning; a waiting session has asked and was neither granted nor denied |
| HostHistory.CancelActionTooLate | agent/aether-agent-runtime/src/host.rs:780-810 | In every reachable host cancelling an action answers true only for an action of that session that has already run to its end, and changes no session's state, no pending approval and not the host's state |
| HostHistory.CreateErrsIff | agent/aether-agent-runtime/src/host.rs:349-378 | In every reachable host creation errs exactly when the host accepts no work or as many sessions were ever created as the cap allows, ended ones included |
| HostRuns.NothingRunsAfterStop | agent/aether-agent-runtime/src/host.rs:917-929 | Once stop returned Ok, no sequence of further calls reaches the executor, whatever the risk |
| HostRuns.GrantRunsIffWaiting | agent/aether-agent-runtime/src/host.rs:580-611 | Granting calls the executor exactly when the approval is pending and its session still waits; the host's own state plays no part |
| HostRuns.SubmitEvicts | agent/aether-agent-runtime/src/host.rs:521-529 | A submission evicts one approval exactly when it parks while the pending map is full, and none otherwise |
| HostRuns.RoomToPark | agent/aether-agent-runtime/src/host.rs:349-356 | While a session can still submit, there are fewer pending approvals than sessions, so fewer than the session cap |
| HostWitness.EvictionReachableIff | agent/aether-agent-runtime/src/host.rs:296-303 | Some run evicts an approval if and only if the session cap exceeds the approval cap (taken as at least 1); with the defaults 64 and 64 none ever does |
| HostWitness.Fill | agent/aether-agent-runtime/src/host.rs:480-541 | For every number within both caps there is a run after which that many sessions wait, each with its approval pending and none evicted |
| HostWitness.FailedHostStillExecutes | agent/aether-agent-runtime/src/host.rs:932-941 | A reachable host in state Failed in which granting a parked approval still executes its action |
| HostWitness.WithdrawnStillRuns | agent/aether-agent-runtime/src/host.rs:580-611 | A reachable host without any capability in which granting a parked approval executes an action the validator would refuse |
| HostWitness.RelabelledRunsUnasked | agent/aether-agent-runtime/src/action.rs:337-340 | A reachable host that executed a shutdown, Critical by the table and relabelled Low, although nothing was ever granted |
| HostWitness.RefusedRestsInPlanning | agent/aether-agent-runtime/src/host.rs:463-479 | A reachable host whose refused session rests in Planning |
| HostWitness.EndedSessionsHoldTheirPlace | agent/aether-agent-runtime/src/host.rs:349-356 | A reachable accepting host all of whose sessions have ended and in which creation errs |
| HostWitness.CompletedActionIsCancelled | agent/aether-agent-runtime/src/host.rs:780-810 | A reachable host in which cancelling a completed action answers true and records the action as denied |
| HostWitness.FreshHostCannotStop | agent/aether-agent-runtime/src/host.rs:917-929 | A host just started is reachable and cannot be stopped |
| HostLedger.ApprovalGate | agent/aether-agent-runtime/src/host.rs:434-837 | The approval gate as a property of every sound journal: the action is valid under the capabilities recorded with its check, and the positions of check, request and grant are given as witnesses |
| HostLedger.ExecutedWasValid | agent/aether-agent-runtime/src/host.rs:446-551 | In a sound journal an executed action of any risk has an earlier check of that session and action whose recorded capabilities make it valid |
| HostLedger.ConsentedIffCarried | agent/aether-agent-runtime/src/host.rs:480-551 | In a sound journal an executed action had consent exactly when its carried risk is High or Critical |
| HostLedger.OneShot | agent/aether-agent-runtime/src/host.rs:687-778 | In a sound journal an executed action of any risk is its session's only one and excludes a cancellation of that session, before or after |
| HostLedger.ResolvedOnce | agent/aether-agent-runtime/src/host.rs:580-679 | No two entries of a sound journal resolve the same approval, whether granted, denied or evicted |
| HostLedger.RequestedOnce | agent/aether-agent-runtime/src/host.rs:488-529 | No approval id is requested twice |
| HostLedger.Exclusive | agent/aether-agent-runtime/src/host.rs:580-679 | Granted, denied and evicted approvals are disjoint and all were requested |
| HostLedger.CountsAreSizes | agent/aether-agent-runtime/src/host.rs:357-378 | The numbers of creation, request, grant, denial, eviction and execution entries equal the sizes of the sets they are recorded in: nothing is recorded twice |
| HostLedger.Conservation | agent/aether-agent-runtime/src/host.rs:499-679 | Requests = grants + denials + evictions + open requests, for every sound journal |
| HostInvariant.StepKeeps | agent/aether-agent-runtime/src/host.rs:349-941 | Every legal operation keeps the invariant |
| HostInvariant.CreateKeeps | agent/aether-agent-runtime/src/host.rs:349-378 | Creating a session keeps the invariant, session cap included |
| HostInvariant.SubmitKeeps | agent/aether-agent-runtime/src/host.rs:434-551 | Submitting keeps the invariant on every branch: refused, parked, parked with eviction, executed |
| HostInvariant.ParkKeeps | agent/aether-agent-runtime/src/host.rs:480-541 | Parking keeps journal, pending map and ledger in agreement and the approval cap respected, with or without eviction |
| HostInvariant.EvictKeeps | agent/aether-agent-runtime/src/host.rs:657-679 | Evicting the oldest approval for a newcomer keeps the agreement and the number of pending approvals |
| HostInvariant.RefuseKeeps | agent/aether-agent-runtime/src/host.rs:463-479 | Refusing an action leaves its session in Planning and keeps the agreement |
| HostInvariant.ExecuteKeeps | agent/aether-agent-runtime/src/host.rs:687-778 | Executing keeps the agreement, provided the session has not run, holds no pending approval and has the consent its risk asks for |
| HostInvariant.ApproveKeeps | agent/aether-agent-runtime/src/host.rs:580-611 | Granting keeps the invariant, also when the session was cancelled meanwhile |
| HostInvariant.DenyKeeps | agent/aether-agent-runtime/src/host.rs:616-652 | Denying keeps the invariant; the session ends Cancelled |
| HostInvariant.CancelActionKeeps | agent/aether-agent-runtime/src/host.rs:782-810 | Cancelling an action token keeps the invariant |
| HostInvariant.CancelSessionKeeps | agent/aether-agent-runtime/src/host.rs:813-837 | Cancelling a session keeps the invariant, the host state and the set of sessions |
| HostInvariant.StopKeeps | agent/aether-agent-runtime/src/host.rs:917-929 | Stopping keeps the invariant; every session is ended once the host is Stopped |
| HostInvariant.FailKeeps | agent/aether-agent-runtime/src/host.rs:932-941 | Failing keeps the invariant |
| HostInvariant.StartInv | agent/aether-agent-runtime/src/host.rs:279-307 | A fresh host satisfies the invariant |
| AgentRuntime.AgentRuntimeHost.constructor | agent/aether-agent-runtime/src/host.rs:279-307 | The new host is Ready, empty and satisfies the invariant |
| AgentRuntime.AgentRuntimeHost.TransitionState | agent/aether-agent-runtime/src/host.rs:955-974 | Exactly the seven listed host transitions succeed; otherwise the state is unchanged and the error is Internal |
| AgentRuntime.AdvanceMeans | agent/aether-agent-runtime/src/host.rs:976-1007 | A move answers Cancellation exactly for a cancelled session that has not ended and a session error for an ended one or a move outside the table; a move that succeeds changes the state only |
| AgentRuntime.AgentRuntimeHost.AdvanceSession | agent/aether-agent-runtime/src/host.rs:976-1007 | Refuses unknown, ended and cancelled sessions and moves outside the lifecycle table, each with its error and without effect; idempotent on the current state |
| AgentRuntime.AgentRuntimeHost.AdvanceSessionIfNot | agent/aether-agent-runtime/src/host.rs:1011-1025 | As AdvanceSession, but a no-op on the target state and on ended sessions |
| AgentRuntime.AgentRuntimeHost.EnterPlanning | agent/aether-agent-runtime/src/host.rs:440-445 | The three opening moves of a submission succeed exactly for a session at rest in Ready, and otherwise leave it untouched |
| AgentRuntime.AgentRuntimeHost.CreateSession | agent/aether-agent-runtime/src/host.rs:349-378 | Refines the create step, reply included, and keeps the invariant |
| AgentRuntime.AgentRuntimeHost.SubmitAction | agent/aether-agent-runtime/src/host.rs:434-551 | Refines the submit step, reply included, through every intermediate session state, and keeps the invariant; the victim it evicts is an oldest approval |
| AgentRuntime.AgentRuntimeHost.RefuseAction | agent/aether-agent-runtime/src/host.rs:463-477 | Refusing an action records and publishes the denial and leaves every session as it is: the attempted move to Failed has no effect |
| AgentRuntime.AgentRuntimeHost.ParkAction | agent/aether-agent-runtime/src/host.rs:480-541 | Refines parking: session waits, request recorded and published, oldest approval evicted when full |
| AgentRuntime.AgentRuntimeHost.EvictOldestPendingApproval | agent/aether-agent-runtime/src/host.rs:657-679 | Removes an approval of least creation time and records it; does nothing on an empty map |
| AgentRuntime.AgentRuntimeHost.ExecuteValidatedAction | agent/aether-agent-runtime/src/host.rs:687-778 | When the session may enter Executing: one executor call, the session ends Completed or Failed with all counters updated, and journal, bus and reply are as specified; an unknown session is answered NotFound, a refused move with its error, and then nothing changes |
| AgentRuntime.AgentRuntimeHost.CompleteSession | agent/aether-agent-runtime/src/host.rs:1027-1043 | Moves an observing session to Completed and announces it; an unknown session is answered NotFound and any other state a session error, without effect |
| AgentRuntime.AgentRuntimeHost.ApproveRequest | agent/aether-agent-runtime/src/host.rs:580-611 | Refines the grant step, reply included, and keeps the invariant |
| AgentRuntime.AgentRuntimeHost.DenyRequest | agent/aether-agent-runtime/src/host.rs:616-652 | Refines the deny step, reply included, and keeps the invariant |
| AgentRuntime.AgentRuntimeHost.CancelAction | agent/aether-agent-runtime/src/host.rs:782-810 | Refines the cancel-action step and keeps the invariant |
| AgentRuntime.AgentRuntimeHost.CancelSession | agent/aether-agent-runtime/src/host.rs:813-837 | Refines the cancel-session step, reply included |
| AgentRuntime.AgentRuntimeHost.Stop | agent/aether-agent-runtime/src/host.rs:917-929 | Refines the stop step for some order of all sessions and keeps the invariant |
| AgentRuntime.AgentRuntimeHost.Fail | agent/aether-agent-runtime/src/host.rs:932-941 | Refines the fail step and keeps the invariant |
| AgentRuntime.AgentRuntimeHost.GrantCapabilities | agent/aether-agent-runtime/src/host.rs:311-315 | Replaces the capabilities validation uses and keeps the invariant |
| Validation.Validate | agent/aether-agent-runtime/src/validator.rs:59-86 | Valid exactly when schema, capabilities and policy hold, and exactly when no error is reported; the errors are listed in stage order; confirmation is asked exactly for a carried risk of High or Critical |
| Validation.ValidateSchema | agent/aether-agent-runtime/src/validator.rs:88-132 | Passes exactly the actions without a structural defect (empty session or reason, empty application, empty path to read, list or delete, deletion of a system directory); otherwise adds exactly one error, naming a defect the action has, a missing session before a missing reason before the rest |
| Validation.SchemaIssueMeans | agent/aether-agent-runtime/src/validator.rs:88-132 | The same about the issue itself, independent of the order of the checks |
| Validation.ErrorsHold | agent/aether-agent-runtime/src/validator.rs:59-155 | The error list names exactly the capabilities asked for and withheld, the policy error exactly when the name looks like a shell, and besides these only defects the action has |
| Capabilities.NeedsItsCapability | agent/aether-agent-runtime/src/action.rs:388-458 | A valid action as the constructor builds it was granted the capability of its own kind, for each of the 39 variants by name |
| Capabilities.PolicyRefusesNothing | agent/aether-agent-runtime/src/validator.rs:145-155 | No variant is named like a shell, so the policy stage refuses no action |
| Capabilities.ValidIffDefectFreeAndGranted | agent/aether-agent-runtime/src/validator.rs:59-86 | An action is valid exactly when it has no structural defect and every capability it asks for was granted |
| Sessions.EnteredFrom | agent/aether-agent-runtime/src/session.rs:84-100 | The lifecycle table, read from the state entered |
| Validation.ValidateCapabilities | agent/aether-agent-runtime/src/validator.rs:134-143 | True exactly when every requested capability is granted; one error per missing one, in order |
| Validation.ValidIffNoErrors | agent/aether-agent-runtime/src/validator.rs:75-85 | The verdict and the error list agree |
| TaskGraphs.EveryGraphOk | agent/aether-agent-core/src/task.rs:357-427 | Every graph built by any mix of insertions and removals has unique ids, is in topological order and has no cycle, dangling edges and reused ids included |
| TaskGraphs.Acyclic | agent/aether-agent-core/src/task.rs:395-409 | In a topologically ordered list no id reaches itself through live tasks |
| TaskGraphs.InsertKeeps | agent/aether-agent-core/src/task.rs:357-393 | Insertion keeps unique ids and topological order |
| TaskGraphs.RemoveKeeps | agent/aether-agent-core/src/task.rs:423-426 | Removal keeps unique ids and topological order and takes away exactly the named task |
| TaskGraphs.ReachedIffNamed | agent/aether-agent-core/src/task.rs:386-390 | Some live task transitively depends on an id exactly when some live task names it directly |
| TaskGraphs.InsertErrorIff | agent/aether-agent-core/src/task.rs:357-393 | Which error an insertion reports, each exactly when: no id, id in use, the first dependency that is not live, or Cycle when all else is in order and a live task names the id |
| TaskGraphs.NoCycleSlipsThrough | agent/aether-agent-core/src/task.rs:372-390 | An insertion that is accepted closes no cycle |
| TaskGraphs.WouldCycleIff | agent/aether-agent-core/src/task.rs:372-390 | A new task closes a cycle exactly when one of its dependencies already reaches its id |
| TaskGraphs.FalseAlarm | agent/aether-agent-core/src/task.rs:386-390 | A reachable graph and a task without dependencies whose insertion is reported as a cycle although it closes none |
| TaskGraphs.CycleReportGenuineIff | agent/aether-agent-core/src/task.rs:372-390 | In every graph that can be built, a reported cycle is one exactly when some dependency of the new task reaches its id |
| TaskGraphs.GenuineAlarm | agent/aether-agent-core/src/task.rs:386-390 | A reachable graph and a task whose insertion is reported as a cycle and would close one |
| TaskGraphClass.TaskGraph.Insert | agent/aether-agent-core/src/task.rs:357-393 | Appends the task or reports the first failing check: empty id, duplicate, first unknown dependency, or Cycle exactly when the earlier checks pass and a live task names the id |
| TaskGraphClass.TaskGraph.TransitivelyDependsOn | agent/aether-agent-core/src/task.rs:395-409 | Terminates on every reachable graph and returns true exactly when a dependency path through live tasks reaches the target |
| TaskGraphClass.TaskGraph.Remove | agent/aether-agent-core/src/task.rs:423-426 | Removes and returns the task of that id, if live; no other task is touched |
| TaskGraphClass.TaskGraph.Get | agent/aether-agent-core/src/task.rs:348-352 | Finds a task exactly when its id is live |
| Scheduling.ReadyIff | agent/aether-agent-core/src/task.rs:415-417 | A task is ready exactly when it is live and all its dependencies are done |
| Scheduling.FirstNotDoneIsReady | agent/aether-agent-core/src/task.rs:415-417 | If every dependency is live or done, the first live task that is not done is ready |
| Scheduling.ScheduleDrains | agent/aether-agent-core/src/state.rs:374-385 | However ready tasks are picked and completed, the graph loses one task per step, always offers a next one while tasks remain, and is empty after exactly its length in steps |
| Scheduling.ScheduleIsDistinct | agent/aether-agent-core/src/state.rs:374-385 | A schedule runs live tasks only, none twice |
| Scheduling.ScheduleRespectsDependencies | agent/aether-agent-core/src/task.rs:415-417 | Each task of a schedule runs after everything it depends on |
| Scheduling.ListOrderIsSchedule | agent/aether-agent-core/src/task.rs:415-417 | Completing tasks in list order is such a schedule |
| Scheduling.DrainsIffClosed | agent/aether-agent-core/src/task.rs:415-417 | A graph can be run to the end, completing ready tasks only, if and only if every dependency of a live task is live or done |
| AgentStatuses.AgentStatus.RecordHistory | agent/aether-agent-core/src/state.rs:188-195 | The history is always the last 64 of everything recorded |
| AgentStatuses.AgentStatus.AddObservation | agent/aether-agent-core/src/state.rs:201-207 | The observation log is always the last 256 of everything added |
| AgentStatuses.AgentStatus.InsertTask | agent/aether-agent-core/src/state.rs:361-363 | Inserts into the live graph with the graph's own errors |
| AgentStatuses.AgentStatus.CompleteTask | agent/aether-agent-core/src/state.rs:374-385 | Takes the task off the graph and appends it to the history with its stage; an unknown id changes nothing |
| Redaction.RedactSensitive | agent/aether-agent-runtime/src/audit.rs:176-195 | Terminates on every text; the six in-place passes equal masking each delimited field once for all keys, and the result is clean |
| Redaction.RedactKey | agent/aether-agent-runtime/src/audit.rs:180-192 | One in-place pass equals masking each field for its key |
| Redaction.RedactedClean | agent/aether-agent-runtime/src/audit.rs:176-195 | Afterwards every occurrence of every key= is immediately followed by the mask and then a delimiter or the end, so no later pass breaks an earlier one |
| Redaction.RedactedCompose | agent/aether-agent-runtime/src/audit.rs:179-193 | Passes compose: masking for some keys and then for others is masking for all of them |
| Redaction.OrderIrrelevant | agent/aether-agent-runtime/src/audit.rs:177-179 | The result depends on the set of keys only, not on the order of the passes |
| Redaction.Idempotent | agent/aether-agent-runtime/src/audit.rs:176-195 | Redacting a redacted text changes nothing |
| Redaction.SecretHiddenIff | agent/aether-agent-runtime/src/audit.rs:165-195 | For every value behind a sensitive key, with any text before and any delimited text after it, the redacted text is the same as for an empty value if and only if the value holds no space, comma, closing parenthesis or quote |
| Redaction.OnlyFirstFieldHidden | agent/aether-agent-runtime/src/audit.rs:183-190 | Of every value behind a sensitive key only the part before its first delimiter is hidden; the rest is redacted like text of its own |
| Redaction.RedactedKeepsDelimiters | agent/aether-agent-runtime/src/audit.rs:183-190 | Redaction keeps the number of delimiters |
| Redaction.QuotedPasswordLeaks | agent/aether-agent-runtime/src/audit.rs:165-195 | A quoted password stays in the redacted text in full |
| Redaction.SensitiveValueReplaced | agent/aether-agent-runtime/src/audit.rs:176-190 | For each of the six words and every value without space, comma, closing parenthesis and quote, word=value is logged as word=[REDACTED] |
| Redaction.SensitiveValueEnds | agent/aether-agent-runtime/src/audit.rs:184-190 | Each of these four characters ends the value and stays; what follows is redacted as text of its own |
| Redaction.HarmlessTextKept | agent/aether-agent-runtime/src/audit.rs:176-194 | A text in which none of the six words is followed by an equals sign is logged unchanged |
| Redaction.Untouched | agent/aether-agent-runtime/src/audit.rs:182-194 | A pass leaves a text without its pattern unchanged |
| BoundedLogs.PopPushIsLast | agent/aether-agent-runtime/src/audit.rs:99-110 | Popping before pushing keeps exactly the newest entries of the full history (capacity 0 keeps one) |
| BoundedLogs.PushDrainIsLast | agent/aether-agent-core/src/state.rs:188-207 | Pushing before draining keeps exactly the newest entries, and agrees with the other discipline for every positive limit |
| AuditLogs.AuditLog.Record | agent/aether-agent-runtime/src/audit.rs:86-111 | Appends the redacted entry to the history; the ring stays the newest part of it and a clean ring stays clean |
| AuditLogs.AuditLog.Recent | agent/aether-agent-runtime/src/audit.rs:114-116 | The newest entries, newest first |
| AuditLogs.AuditLog.SnapshotRecent | agent/aether-agent-runtime/src/audit.rs:134-137 | The last min(count, capacity) entries of the history, oldest first |
| AuditLogs.AuditLog.RestoreRecent | agent/aether-agent-runtime/src/audit.rs:143-156 | The ring becomes the last capacity entries of the input, in order; returns how many |
| AuditLogs.PersistAndRestore | agent/aether-agent-runtime/src/host.rs:887-914 | Snapshot and restore, into another ring or the same one, leave the last min(count, both capacities) entries the source's history had |
| Delivery.AcceptedIff | agent/aether-device-core/src/remote.rs:160-195 | In any run a delivery is accepted exactly when its peer is known, paired, sends under its registered key and was granted that kind (observations or proposals), it is no older than the window, and its number is positive and above all numbers accepted before from that peer for that kind |
| Delivery.RejectedIff | agent/aether-device-core/src/remote.rs:160-195 | In any run, which rejection when: unknown peer, not paired, foreign key, kind not granted, number not above the greatest accepted before (with both numbers reported), or too old with all else in order |
| Delivery.AcceptedIncrease | agent/aether-device-runtime/src/lib.rs:58-126 | Accepted numbers of one peer and kind strictly increase from at least 1, so nothing is accepted twice |
| Delivery.StoredIsGreatest | agent/aether-device-runtime/src/lib.rs:84-89 | The stored number is the greatest accepted on its channel, 0 before the first |
| Delivery.ChannelsAreIndependent | agent/aether-device-runtime/src/lib.rs:58-126 | The outcomes for one peer and kind equal those of running only its own deliveries |
| Delivery.OtherChannelsUntouched | agent/aether-device-runtime/src/lib.rs:84-91 | A rejected delivery or one on another channel leaves a channel's number alone |
| Delivery.DeviceRuntime.AcceptObservation | agent/aether-device-runtime/src/lib.rs:58-92 | Answers as the checks in their order say; a rejection changes no state and the state stays that of the whole history |
| Delivery.DeviceRuntime.AcceptProposal | agent/aether-device-runtime/src/lib.rs:95-126 | The same for proposals |
| Backoff.BackoffsAreIdeal | agent/aether-agent-runtime/src/recovery.rs:133-140 | From attempt 1 on, for all 64-bit base and max, both exponential backoffs equal min(base * 2^min(n-1,20), max) on unbounded integers and never exceed max |
| Backoff.BackoffsAgreeIff | agent/aether-retry-policy/src/lib.rs:84-95 | The two backoffs differ exactly at attempt 0 with positive base and max |
| Backoff.BackoffMonotone | agent/aether-retry-policy/src/lib.rs:84-95 | Neither backoff ever gets shorter at a later attempt |
| Backoff.NextDelaySameIff | agent/aether-retry-policy/src/lib.rs:84-95 | For 64-bit parameters the delay of the next attempt equals that of this one exactly when there is none or it is constant, a linear base is 0 or its product already saturates, or an exponential one is at attempt 0 or at least 21, has base 0 or has already reached its maximum |
| RetryPolicies.RetryDelayDocumentedIff | agent/aether-retry-policy/src/lib.rs:336-338 | Over any run, the delay answered after failure n is the one documented for the n-th retry exactly when the backoff has levelled out in that sense |
| RetryPolicies.FirstRetryWaitsTwice | agent/aether-retry-policy/src/lib.rs:336-338 | With base 100 and maximum 5000 the first retry is answered 200 where 100 is documented |
| RetryPolicies.CountIsHistory | agent/aether-retry-policy/src/lib.rs:300-326 | Over any run the stored group count equals the group's failures since its last reset that were not answered by CircuitBreak, modulo 2^32 |
| RetryPolicies.BreaksIff | agent/aether-retry-policy/src/lib.rs:306-319 | A failure gets CircuitBreak exactly when its task has a group and a positive threshold that count has reached |
| RetryPolicies.AnswersOtherwise | agent/aether-retry-policy/src/lib.rs:328-339 | Over any run, when the breaker does not trip: a registered task is retried exactly while the attempt is below its maximum, then gets its first fallback if it has one, and is otherwise given up, as is an unregistered one |
| RetryPolicies.RetryDelayIs | agent/aether-retry-policy/src/lib.rs:336-338 | The delay of a retry in numbers: 0, the constant, min(base * (attempt + 1), 2^64 - 1), or min(base * 2^min(attempt, 20), max) |
| RetryPolicies.TrippedUntilReset | agent/aether-retry-policy/src/lib.rs:279-292 | A tripped breaker stays tripped through any operations that do not reset its group, while the counter has not wrapped |
| RetryPolicies.FirstRegistrationWins | agent/aether-retry-policy/src/lib.rs:269-277 | A task keeps the policy it was registered with first |
| RetryPolicies.NoGroupNoBreaker | agent/aether-retry-policy/src/lib.rs:308-326 | A task without a group never gets CircuitBreak and changes no counter, whatever its threshold |
| RetryPolicies.UngroupedTaskIsRetried | agent/aether-retry-policy/src/lib.rs:308-326 | A task without a group and with threshold 1 is still retried after two failures |
| RetryPolicies.NextAttemptFits | agent/aether-retry-policy/src/lib.rs:329-337 | Whenever a retry is granted, attempt + 1 fits 32 bits |
| RetryPolicies.PolicyEngine.RegisterPolicy | agent/aether-retry-policy/src/lib.rs:269-271 | Refines registration |
| RetryPolicies.PolicyEngine.Reset | agent/aether-retry-policy/src/lib.rs:281-285 | Refines the reset of one group by updating its first entry in place |
| RetryPolicies.PolicyEngine.ResetAll | agent/aether-retry-policy/src/lib.rs:288-292 | Refines the reset of all groups |
| RetryPolicies.PolicyEngine.DecideFailure | agent/aether-retry-policy/src/lib.rs:300-339 | Refines the decision, answer and new counters |
| Recovery.ExecuteWithRecovery | agent/aether-agent-runtime/src/executor.rs:489-523 | For every sequence of executor answers the loop stops at the first attempt that succeeded, failed permanently, failed unclassified after attempt 1 or exhausted the budget; at most 4 attempts, exactly 1 for any action above Low risk; the answer is that attempt's |
| Recovery.RetriedIffHarmless | agent/aether-agent-runtime/src/action.rs:470-496 | Three retries for exactly the listed variants that only look or move windows, none for the others; with setting the brightness these are the Low-risk ones |
| Recovery.RetriesIff | agent/aether-agent-runtime/src/recovery.rs:166-193 | A step is tried again exactly while retries are left and its failure is transient, or unclassified on the first attempt; giving up on an optional step skips it |
| Recovery.WaitsBetweenAttempts | agent/aether-agent-runtime/src/recovery.rs:111-140 | The three retries wait 100, 200 and 400 milliseconds |
| Pipeline.PowerTask | agent/aether-agent-runtime/src/task_to_action.rs:114-136 | A power task reboots, shuts down or suspends as its operation says, after its delay or none; any other operation is an argument error |
| Pipeline.OperationIs | agent/aether-agent-runtime/src/task_to_action.rs:114-151 | The operation is the text under operation, or under kind when there is no operation, else the default |
| Pipeline.DeviceTask | agent/aether-agent-runtime/src/task_to_action.rs:67-76 | A device task disables the device it names exactly when it says enable: false, otherwise enables it, and fails exactly when it names none |
| Pipeline.DisplayTask | agent/aether-agent-runtime/src/task_to_action.rs:77-87 | A display task sets the named display to its level, at most 100, and fails by what is missing |
| Pipeline.CustomTask | agent/aether-agent-runtime/src/task_to_action.rs:170-197 | A custom task informs, restarts a service or launches an application as its kind says, and fails by what is missing or unsupported |
| Pipeline.OtherTasks | agent/aether-agent-runtime/src/task_to_action.rs:52-168 | What the remaining kinds of task turn into, and with which error they fail |
| Pipeline.ActionOfTask | agent/aether-agent-runtime/src/task_to_action.rs:52-112 | The action has the id and session given, the task's description as reason, its own name as capability and its table risk; a blank session is refused first |
| Pipeline.RiskGate | agent/aether-agent-runtime/src/proposal_runner.rs:96-119 | A proposal that passed validation and triage converts, if at all, to a Low-risk action: a context read or a brightness of at most 100 |
| Pipeline.RiskyActionsWereHeldBack | agent/aether-agent-runtime/src/task_to_action.rs:52-112 | An action of Medium or higher risk comes only from a valid proposal triage held back for consent |
| Pipeline.TriageAloneIff | agent/aether-agent-runtime/src/proposal_runner.rs:103-116 | Of the proposals triage lets through unvalidated, exactly those of the listed kinds convert to Low-risk actions |
| Pipeline.UnvalidatedProposalSlipsThrough | agent/aether-agent-runtime/src/proposal_runner.rs:103-116 | A proposal claiming Low risk that triage lets through and that converts to a Medium-risk action |
| Pipeline.ConsentCoversActionIff | agent/aether-agent-core/src/proposal.rs:285-296 | A valid proposal's action stays within the risk consented to, except exactly when power control claims High and does not suspend |
| Pipeline.ConsentExceeded | agent/aether-agent-core/src/proposal.rs:285-296 | A valid power control proposal claiming High that turns into a Critical reboot |
| Pipeline.TriageProposals | agent/aether-agent-runtime/src/proposal_runner.rs:96-119 | Partitions the proposals in order: the Low ones, and one consent request for each other |
| Pipeline.ExecuteProposal | agent/aether-agent-runtime/src/proposal_runner.rs:122-218 | Leaves the live graph as it was on every path, records one history entry exactly when the task got onto the graph, calls the executor exactly when conversion succeeded, and reports its last answer |
| Pipeline.ExecuteBatch | agent/aether-agent-runtime/src/proposal_runner.rs:221-228 | One result per proposal in order; the live graph is left as it was and the history grows by the number of tasks run |
| Plans.Plan.AddStep | agent/aether-agent-runtime/src/planner.rs:104-107 | Appends the step; the plan's estimate stays the greatest risk word of its steps in dictionary order, and approval is required exactly when that word is high or critical |
| Plans.Plan.RecalculateRisk | agent/aether-agent-runtime/src/planner.rs:109-115 | Recomputes that estimate from the steps; without steps it changes nothing |
| Plans.AsksApprovalIff | agent/aether-agent-runtime/src/planner.rs:109-115 | With the four risk words a plan asks for approval exactly when all its steps are high or critical, not when one is |
| Plans.AsksWhenItOughtIff | agent/aether-agent-runtime/src/planner.rs:109-115 | With the four risk words a plan asks for approval exactly when some step is high or critical, if and only if all its steps are or none is |
| Plans.CriticalStepUnasked | agent/aether-agent-runtime/src/planner.rs:109-115 | The greatest word of a critical and a low step is low, so that plan asks for nothing |
| Proposals.ValidIff | agent/aether-agent-core/src/proposal.rs:266-298 | A proposal is valid exactly when its texts are non-empty, its evidence is known and it claims at least High for updates, installations, security, power and custom tasks, and at least Medium for restarts, cleanups, scans and devices |
| Proposals.IssueIff | agent/aether-agent-core/src/proposal.rs:266-298 | Which issue is reported, each exactly when, with the missing evidence named |
| Proposals.TaskSaysTheSame | agent/aether-agent-core/src/proposal.rs:336-352 | A proposal becomes a task exactly when id, title and description are there; the task says the same and depends on nothing |
| Proposals.ValidateProposal | agent/aether-agent-core/src/proposal.rs:266-298 | Reports the first issue in the order of the checks, or none |
| Proposals.ProposeFromObservations | agent/aether-agent-core/src/proposal.rs:311-324 | Partitions the drafts into the valid ones and the issues of the others, in order |
| Proposals.MinRiskIsDefaultIff | agent/aether-agent-core/src/proposal.rs:285-293 | The minimum risk of a kind is its default risk for every kind but power control |
| Fnv.OneByteChangesChecksum | agent/aether-agent-runtime/src/memory_store.rs:357-366 | Two byte strings of equal length that differ in one byte have different 16-digit checksums |
| Fnv.OneByteChangesHash | agent/aether-agent-runtime/src/memory_store.rs:360-364 | The same for the 64-bit hashes |
| Fnv.AbsorbKeepsApart | agent/aether-agent-runtime/src/memory_store.rs:362-363 | Absorbing a byte is injective on 64-bit words, the prime having an inverse modulo 2^64 |
| Fnv.AbsorbTellsBytes | agent/aether-agent-runtime/src/memory_store.rs:362-363 | From one word, different bytes lead to different words |
| Fnv.KnownHashes | agent/aether-agent-runtime/src/memory_store.rs:357-366 | The published values of FNV-1a with 64 bits for the empty text and for the letter a |
| Fnv.HexRoundTrip | agent/aether-agent-runtime/src/memory_store.rs:365 | Reading the hexadecimal digits back gives the word |
| Fnv.Fnv1a64Hex | agent/aether-agent-runtime/src/memory_store.rs:357-366 | The loop computes the hash, printed as sixteen digits that read back as it |
| Framebuffer.SpanExactIff | graphics/aether-graphical-shell/src/fb.rs:64-65 | For every x, w and width below 2^30 the bytes the code selects in a row are exactly those of the rectangle's visible columns if and only if the span fits: x + w >= 0 with x below 2^30 (or wrapping past the width), or a negative right edge that is a multiple of 2^30 |
| Framebuffer.PaintsRightIff | graphics/aether-graphical-shell/src/fb.rs:61-74 | On a sane geometry the code neither panics nor selects any byte of the buffer but those of the rectangle's visible pixels, and selects all of those, if and only if the span fits or no row is visible |
| Framebuffer.WrongCalls | graphics/aether-graphical-shell/src/fb.rs:64-70 | On a one-pixel screen, a rectangle at column 2^30 paints the pixel and one that ends a column left of the screen panics |
| Framebuffer.Screen.Rect | graphics/aether-graphical-shell/src/fb.rs:61-74 | For every call: panics exactly when a selected row runs past the buffer, changes no byte that is not selected, and otherwise fills the selected ones with bytes of the pixel; on a valid screen, when the span fits or no row is visible, it does not panic, every byte of every pixel in the intersection of rectangle and screen gets its colour and every other byte is unchanged |
| Framebuffer.Screen.PaintSpan | graphics/aether-graphical-shell/src/fb.rs:70-72 | Fills the span with whole pixels and touches nothing else |
| Framebuffer.Screen.constructor | graphics/aether-graphical-shell/src/fb.rs:51-53 | A black buffer of stride times height bytes, computed on 32 bits; the screen is valid exactly when a row holds its pixels and the size does not wrap |

## Left out

- Executor, IPC and surface requests, the language model providers and proposal generation: network I/O; execution is an arbitrary answer.
- The host's 4096-entry audit ring: the host keeps the unbounded journal; `AuditLogs` models the ring on its own.
- Message texts of errors, outcomes and audit details, wall-clock durations and JSON encodings.
- Truncation of audit details to 500 bytes before redaction: texts are character sequences and the model starts at the redaction.
- The device registry's own operations (register, transition, unregister): the runtime never changes its registry, which is a constant lookup here.
- The persisted envelope: its reader does not recompute the checksum, so only the hash is modelled.
- The compositor, shell drawing, seccomp lists, sandbox plans, manifests and name tables: user interface, I/O or finite tables.
- The background agent's tick: its automation, diagnostics and recovery crates are not part of this model.
- The rest of the planner (turning intents into steps, the check that steps depend on earlier ones only, plan retries): the host is never given a plan, only its actions.
- Framebuffer.Screen.Rect: does not model overflow of the 64-bit sums x + w and y + h; the 32-bit wrap-around of the columns is that of a release build, where a debug build panics. A panic by slicing ends the call with `ok` false.
- Framebuffer.Screen.constructor: models the size of a release build, which wraps round; a debug build panics instead.
- RetryPolicies.PolicyEngine.DecideFailure: models the counter of a release build, which wraps round; a debug build panics instead.
- AuditLogs.AuditLog.RestoreRecent: takes entries as they are, so a restored ring is clean only if its input was.
