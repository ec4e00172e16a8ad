/** The audit log: a ring of entries whose details are redacted on the way in. */
module AuditLogs {
  import opened Prelude
  import opened BoundedLogs
  import opened Redaction

  datatype AuditEventType =
    | SessionCreated | SessionStarted | SessionCompleted | SessionFailed | SessionCancelled
    | IntentCreated | PlanCreated
    | ActionRequested | ActionApproved | ActionDenied | ActionStarted | ActionCompleted | ActionFailed
    | CapabilityCheck | PolicyCheck
    | ApprovalRequested | ApprovalGranted | ApprovalDenied
    | LlmRequest | LlmResponse

  datatype AuditEntry = AuditEntry(
    timestamp: nat,
    sessionId: string,
    eventType: AuditEventType,
    detail: string,
    success: bool,
    component: string)

  ghost predicate AllClean(entries: seq<AuditEntry>) {
    forall i :: 0 <= i < |entries| ==> Clean(entries[i].detail, SENSITIVE_KEYS)
  }

  class AuditLog {
    var entries: seq<AuditEntry>
    const capacity: nat
    /** Everything recorded since the log was created or restored. */
    ghost var history: seq<AuditEntry>

    ghost predicate Valid()
      reads this
    {
      entries == Last(history, Max(capacity, 1))
    }

    constructor (capacity: nat)
      ensures Valid() && history == [] && this.capacity == capacity
    {
      entries, history, this.capacity := [], [], capacity;
    }

    method Record(now: nat, sessionId: string, eventType: AuditEventType, detail: string, success: bool, component: string)
      requires Valid()
      modifies this
      ensures Valid()
      ensures history == old(history)
        + [AuditEntry(now, sessionId, eventType, Redacted(detail, SENSITIVE_KEYS), success, component)]
      ensures old(AllClean(entries)) ==> AllClean(entries)
    {
      hide Redacted, Clean;
      if |entries| >= capacity && entries != [] {
        entries := entries[1..];
      }
      var clean := RedactSensitive(detail);
      var entry := AuditEntry(now, sessionId, eventType, clean, success, component);
      entries := entries + [entry];
      PopPushKeeps(history, capacity, entry);
      history := history + [entry];
    }

    /** Newest first. */
    method Recent(count: nat) returns (r: seq<AuditEntry>)
      requires Valid()
      ensures r == Reversed(Last(history, Min(count, Max(capacity, 1))))
    {
      hide Reversed, Last;
      r := Reversed(entries)[..Min(count, |entries|)];
      NewestFirst(entries, count);
      LastOfLast(history, Max(capacity, 1), count);
    }

    /** Oldest first. */
    method SnapshotRecent(count: nat) returns (r: seq<AuditEntry>)
      requires Valid()
      ensures r == Last(history, Min(count, Max(capacity, 1)))
    {
      var n := Min(count, |entries|);
      r := Reversed(Reversed(entries)[..n]);
      TakeFromBack(entries, n);
      LastOfLast(history, Max(capacity, 1), count);
    }

    method RestoreRecent(input: seq<AuditEntry>) returns (kept: nat)
      modifies this
      ensures Valid() && entries == history == Last(input, capacity)
      ensures kept == Min(|input|, capacity)
    {
      var newest := input;
      if |newest| > capacity {
        newest := newest[|newest| - capacity..];
      }
      kept := |newest|;
      entries := [];
      for i := 0 to |newest|
        invariant entries == newest[..i]
      {
        entries := entries + [newest[i]];
      }
      history := entries;
    }
  }

  /** What is left after a snapshot of `count` from one ring is restored into another, or into the same one. */
  method PersistAndRestore(source: AuditLog, target: AuditLog, count: nat) returns (kept: nat)
    requires source.Valid()
    modifies target
    ensures target.Valid()
    ensures target.entries == Last(old(source.history), Min(Min(count, Max(source.capacity, 1)), target.capacity))
    ensures kept == |target.entries|
  {
    var snapshot := source.SnapshotRecent(count);
    LastOfLast(source.history, Min(count, Max(source.capacity, 1)), target.capacity);
    kept := target.RestoreRecent(snapshot);
  }
}
