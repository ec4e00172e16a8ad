/** The retry policy engine: per-task policies and a failure counter per group that trips a breaker. */
module RetryPolicies {
  import opened Prelude
  import opened Backoff
  import opened Tasks

  datatype RetryPolicy = RetryPolicy(
    maxAttempts: nat,
    backoff: BackoffStrategy,
    fallbacks: seq<TaskId>,
    threshold: nat,
    group: Option<string>)

  datatype Decision =
    | Retry(delayMs: nat)
    | Fallback(id: TaskId)
    | CircuitBreak
    | GiveUp

  /** Policies in order of registration, and failure counts by group. */
  datatype Engine = Engine(policies: seq<(TaskId, RetryPolicy)>, failures: seq<(string, nat)>)

  const COUNTER_MODULUS := 0x1_0000_0000

  /** The first entry under a key. */
  function Lookup<V>(entries: seq<(string, V)>, key: string): Option<V> {
    if entries == [] then None
    else if entries[0].0 == key then Some(entries[0].1)
    else Lookup(entries[1..], key)
  }

  function CountOf(failures: seq<(string, nat)>, group: string): nat {
    match Lookup(failures, group)
    case Some(c) => c
    case None => 0
  }

  /** A 32-bit counter wraps round. */
  function Wrap(n: nat): nat {
    n % COUNTER_MODULUS
  }

  function Bump(failures: seq<(string, nat)>, group: string): seq<(string, nat)> {
    if failures == [] then [(group, 1)]
    else if failures[0].0 == group then [(group, Wrap(failures[0].1 + 1))] + failures[1..]
    else [failures[0]] + Bump(failures[1..], group)
  }

  function Zero(failures: seq<(string, nat)>, group: string): seq<(string, nat)> {
    if failures == [] then []
    else if failures[0].0 == group then [(group, 0)] + failures[1..]
    else [failures[0]] + Zero(failures[1..], group)
  }

  function ZeroAll(failures: seq<(string, nat)>): seq<(string, nat)> {
    if failures == [] then [] else [(failures[0].0, 0)] + ZeroAll(failures[1..])
  }

  predicate Tripped(p: RetryPolicy, count: nat) {
    p.group.Some? && p.threshold > 0 && count >= p.threshold
  }

  /** What follows once the breaker let the failure through. */
  function Respond(p: RetryPolicy, attempt: nat): Decision {
    if attempt >= p.maxAttempts then
      if p.fallbacks != [] then Fallback(p.fallbacks[0]) else GiveUp
    else Retry(DelayMs(p.backoff, attempt + 1))
  }

  function Decide(e: Engine, task: TaskId, attempt: nat): (Engine, Decision) {
    match Lookup(e.policies, task)
    case None => (e, GiveUp)
    case Some(p) =>
      if p.group.None? then (e, Respond(p, attempt))
      else if Tripped(p, CountOf(e.failures, p.group.value)) then (e, CircuitBreak)
      else (e.(failures := Bump(e.failures, p.group.value)), Respond(p, attempt))
  }

  datatype Op =
    | Register(task: TaskId, policy: RetryPolicy)
    | Fail(task: TaskId, attempt: nat)
    | ResetBreaker(group: string)
    | ResetAllBreakers

  function Step(e: Engine, op: Op): Engine {
    match op
    case Register(task, policy) => e.(policies := e.policies + [(task, policy)])
    case Fail(task, attempt) => Decide(e, task, attempt).0
    case ResetBreaker(g) => e.(failures := Zero(e.failures, g))
    case ResetAllBreakers => e.(failures := ZeroAll(e.failures))
  }

  function After(ops: seq<Op>): Engine {
    if ops == [] then Engine([], []) else Step(After(ops[..|ops| - 1]), ops[|ops| - 1])
  }

  // ---- history: what the counters and lookups are meant to be ----

  /** The policy a task was registered with first. */
  function Registered(ops: seq<Op>, task: TaskId): Option<RetryPolicy> {
    if ops == [] then None else
    match Registered(ops[..|ops| - 1], task)
    case Some(p) => Some(p)
    case None =>
      var op := ops[|ops| - 1];
      if op.Register? && op.task == task then Some(op.policy) else None
  }

  /**
   The failures of a group since its last reset that were not answered by breaking the
   circuit, read off the operations alone.
   */
  function GroupFailures(ops: seq<Op>, group: string): nat {
    if ops == [] then 0 else
    var before := ops[..|ops| - 1];
    var n := GroupFailures(before, group);
    match ops[|ops| - 1]
    case Register(_, _) => n
    case ResetBreaker(g) => if g == group then 0 else n
    case ResetAllBreakers => 0
    case Fail(task, _) =>
      match Registered(before, task)
      case None => n
      case Some(p) => if p.group == Some(group) && !Tripped(p, Wrap(n)) then n + 1 else n
  }

  lemma {:induction false} LookupAppend<V>(entries: seq<(string, V)>, key: string, e: (string, V))
    ensures Lookup(entries + [e], key) ==
            match Lookup(entries, key) case Some(v) => Some(v) case None => if e.0 == key then Some(e.1) else None
  {
    if entries != [] {
      assert (entries + [e])[1..] == entries[1..] + [e];
      LookupAppend(entries[1..], key, e);
    }
  }

  lemma WrapOne()
    ensures Wrap(1) == 1
  {
  }

  lemma WrapSucc(n: nat)
    ensures Wrap(Wrap(n) + 1) == Wrap(n + 1)
  {
  }

  lemma {:induction false} BumpCounts(failures: seq<(string, nat)>, group: string, other: string)
    ensures CountOf(Bump(failures, group), other) ==
            if other == group then Wrap(CountOf(failures, group) + 1) else CountOf(failures, other)
  {
    hide Wrap;
    if failures == [] {
      WrapOne();
      assert Bump(failures, group)[1..] == [];
    } else if failures[0].0 == group {
      assert Bump(failures, group)[1..] == failures[1..];
    } else {
      assert Bump(failures, group)[1..] == Bump(failures[1..], group);
      BumpCounts(failures[1..], group, other);
    }
  }

  lemma {:induction false} ZeroCounts(failures: seq<(string, nat)>, group: string, other: string)
    ensures CountOf(Zero(failures, group), other) == if other == group then 0 else CountOf(failures, other)
  {
    if failures != [] {
      if failures[0].0 == group {
        assert Zero(failures, group)[1..] == failures[1..];
      } else {
        assert Zero(failures, group)[1..] == Zero(failures[1..], group);
        ZeroCounts(failures[1..], group, other);
      }
    }
  }

  lemma {:induction false} ZeroAllCounts(failures: seq<(string, nat)>, other: string)
    ensures CountOf(ZeroAll(failures), other) == 0
  {
    if failures != [] {
      ZeroAllCounts(failures[1..], other);
    }
  }

  /** A task keeps the policy it was registered with first; later registrations are ignored. */
  lemma {:induction false} FirstRegistrationWins(ops: seq<Op>, task: TaskId)
    ensures Lookup(After(ops).policies, task) == Registered(ops, task)
  {
    if ops != [] {
      var before := ops[..|ops| - 1];
      FirstRegistrationWins(before, task);
      if ops[|ops| - 1].Register? {
        LookupAppend(After(before).policies, task, (ops[|ops| - 1].task, ops[|ops| - 1].policy));
      }
    }
  }

  lemma EmptyCount(group: string)
    ensures CountOf([], group) == 0 == Wrap(0)
  {
  }

  lemma WrapIs(n: nat)
    ensures Wrap(n) == n % 0x1_0000_0000
  {
  }

  /** The stored count is the group's failures since its last reset, modulo the counter's width. */
  lemma {:induction false} CountIsHistory(ops: seq<Op>, group: string)
    ensures CountOf(After(ops).failures, group) == Wrap(GroupFailures(ops, group)) == GroupFailures(ops, group) % 0x1_0000_0000
  {
    hide Wrap, Bump, Zero, ZeroAll, CountOf, Lookup;
    WrapIs(GroupFailures(ops, group));
    if ops == [] {
      EmptyCount(group);
    } else {
      var before := ops[..|ops| - 1];
      CountIsHistory(before, group);
      WrapSucc(GroupFailures(before, group));
      assert Wrap(0) == 0 by { EmptyCount(group); }
      var e := After(before);
      match ops[|ops| - 1]
      case Register(_, _) =>
      case ResetBreaker(g) => ZeroCounts(e.failures, g, group);
      case ResetAllBreakers => ZeroAllCounts(e.failures, group);
      case Fail(task, _) =>
        FirstRegistrationWins(before, task);
        var p := Registered(before, task);
        if p.Some? && p.value.group.Some? {
          BumpCounts(e.failures, p.value.group.value, group);
        }
    }
  }

  /** A failure breaks the circuit exactly when its group has failed often enough since the last reset. */
  lemma BreaksIff(ops: seq<Op>, task: TaskId, attempt: nat)
    ensures Decide(After(ops), task, attempt).1 == CircuitBreak <==>
              match Registered(ops, task)
              case None => false
              case Some(p) => p.group.Some? && p.threshold > 0 && GroupFailures(ops, p.group.value) % 0x1_0000_0000 >= p.threshold
  {
    FirstRegistrationWins(ops, task);
    match Registered(ops, task)
    case Some(p) => if p.group.Some? { CountIsHistory(ops, p.group.value); }
    case None =>
  }

  lemma RespondsByPolicy(ops: seq<Op>, task: TaskId, attempt: nat)
    requires Decide(After(ops), task, attempt).1 != CircuitBreak
    ensures Decide(After(ops), task, attempt).1 ==
            match Registered(ops, task) case None => GiveUp case Some(p) => Respond(p, attempt)
  {
    FirstRegistrationWins(ops, task);
  }

  /**
   The answer to a failure the breaker let through. A registered task is retried as long as
   attempts are left; then its first fallback runs; without one, or without a policy, it is
   given up.
   */
  lemma AnswersOtherwise(ops: seq<Op>, task: TaskId, attempt: nat)
    requires Decide(After(ops), task, attempt).1 != CircuitBreak
    ensures var a := Decide(After(ops), task, attempt).1;
            match Registered(ops, task)
            case None => a == GiveUp
            case Some(p) =>
              && (a.Retry? <==> attempt < p.maxAttempts)
              && (a.Fallback? <==> attempt >= p.maxAttempts && p.fallbacks != [])
              && (a.Fallback? ==> a == Fallback(p.fallbacks[0]))
              && (a == GiveUp <==> attempt >= p.maxAttempts && p.fallbacks == [])
  {
    RespondsByPolicy(ops, task, attempt);
  }

  /** The delay of a retry as a number, for every strategy with 64-bit parameters. */
  lemma RetryDelayIs(ops: seq<Op>, task: TaskId, attempt: nat)
    requires Registered(ops, task).Some? && FitsU64(Registered(ops, task).value.backoff)
    requires Decide(After(ops), task, attempt).1.Retry?
    ensures Decide(After(ops), task, attempt).1.delayMs ==
            match Registered(ops, task).value.backoff
            case NoBackoff => 0
            case Constant(ms) => ms
            case Linear(base) => Min(base * (attempt + 1), 0xFFFF_FFFF_FFFF_FFFF)
            case Exponential(base, max) => Min(base * Pow2(Min(attempt, 20)), max)
  {
    hide Registered, After;
    RespondsByPolicy(ops, task, attempt);
    var b := Registered(ops, task).value.backoff;
    if b.Exponential? {
      BackoffsAreIdeal(b.base, b.max, attempt + 1);
    }
  }

  /**
   A delay is documented for the n-th retry, yet after n failures the answer is the delay of
   retry n + 1. It is the documented one exactly when the backoff has levelled out.
   */
  lemma RetryDelayDocumentedIff(ops: seq<Op>, task: TaskId, attempt: nat)
    requires Registered(ops, task).Some? && FitsU64(Registered(ops, task).value.backoff)
    requires Decide(After(ops), task, attempt).1.Retry?
    ensures var b := Registered(ops, task).value.backoff;
            Decide(After(ops), task, attempt).1 == Retry(DelayMs(b, attempt)) <==> Levelled(b, attempt)
  {
    hide DelayMs, Levelled, Registered, After;
    RespondsByPolicy(ops, task, attempt);
    NextDelaySameIff(Registered(ops, task).value.backoff, attempt);
  }

  /** The first retry of a task that is to wait 100 ms, then 200 ms, waits 200 ms. */
  lemma FirstRetryWaitsTwice() returns (ops: seq<Op>)
    ensures Registered(ops, "t") == Some(RetryPolicy(3, Exponential(100, 5000), [], 0, None))
    ensures Decide(After(ops), "t", 1).1 == Retry(200) && DelayMs(Exponential(100, 5000), 1) == 100
  {
    var p := RetryPolicy(3, Exponential(100, 5000), [], 0, None);
    ops := [Register("t", p)];
    assert ops[..0] == [];
    assert After(ops).policies == [("t", p)];
    assert SaturatingPow(2, 0) == 1 && SaturatingPow(2, 1) == 2;
  }

  predicate Resets(op: Op, group: string) {
    op.ResetAllBreakers? || op == ResetBreaker(group)
  }

  lemma {:induction false} FailuresGrow(ops: seq<Op>, more: seq<Op>, group: string)
    requires forall i :: 0 <= i < |more| ==> !Resets(more[i], group)
    ensures GroupFailures(ops, group) <= GroupFailures(ops + more, group)
    decreases |more|
  {
    if more == [] {
      assert ops + more == ops;
    } else {
      var n := |more| - 1;
      FailuresGrow(ops, more[..n], group);
      assert (ops + more)[..|ops| + n] == ops + more[..n];
    }
  }

  lemma {:induction false} StaysRegistered(ops: seq<Op>, more: seq<Op>, task: TaskId)
    requires Registered(ops, task).Some?
    ensures Registered(ops + more, task) == Registered(ops, task)
    decreases |more|
  {
    if more == [] {
      assert ops + more == ops;
    } else {
      var n := |more| - 1;
      StaysRegistered(ops, more[..n], task);
      assert (ops + more)[..|ops| + n] == ops + more[..n];
    }
  }

  /**
   Once a task gets CircuitBreak, it gets nothing else until its group is reset, as long as the
   counter has not wrapped round.
   */
  lemma TrippedUntilReset(ops: seq<Op>, more: seq<Op>, task: TaskId, group: string, a: nat, b: nat)
    requires Registered(ops, task).Some? && Registered(ops, task).value.group == Some(group)
    requires Decide(After(ops), task, a).1 == CircuitBreak
    requires forall i :: 0 <= i < |more| ==> !Resets(more[i], group)
    requires GroupFailures(ops + more, group) < 0x1_0000_0000
    ensures Decide(After(ops + more), task, b).1 == CircuitBreak
  {
    hide Decide, After, GroupFailures, Registered;
    BreaksIff(ops, task, a);
    BreaksIff(ops + more, task, b);
    FailuresGrow(ops, more, group);
    StaysRegistered(ops, more, task);
  }

  /** Without a group there is no breaker, whatever the threshold. */
  lemma NoGroupNoBreaker(ops: seq<Op>, task: TaskId, attempt: nat)
    requires Registered(ops, task).Some? && Registered(ops, task).value.group.None?
    ensures Decide(After(ops), task, attempt).1 != CircuitBreak
    ensures Decide(After(ops), task, attempt).0 == After(ops)
  {
    FirstRegistrationWins(ops, task);
  }

  /** A task without a group and with a threshold of 1 goes on being retried after two failures. `BreaksIff` says what a breaker takes. */
  lemma UngroupedTaskIsRetried() returns (ops: seq<Op>)
    ensures Registered(ops, "t") == Some(RetryPolicy(9, NoBackoff, [], 1, None))
    ensures |ops| == 3 && ops[1] == Fail("t", 1) && ops[2] == Fail("t", 2)
    ensures Decide(After(ops), "t", 3).1 == Retry(0)
  {
    var register := Register("t", RetryPolicy(9, NoBackoff, [], 1, None));
    ops := [register, Fail("t", 1), Fail("t", 2)];
    assert ops[..2] == [register, Fail("t", 1)] && ops[..2][..1] == [register] && ops[..2][..1][..0] == [];
    assert Registered([register], "t") == Some(register.policy);
    assert Registered(ops[..2], "t") == Some(register.policy);
    NoGroupNoBreaker(ops, "t", 3);
    RespondsByPolicy(ops, "t", 3);
  }

  /** When a retry is granted the number of the next attempt still fits 32 bits. */
  lemma NextAttemptFits(e: Engine, task: TaskId, attempt: nat)
    requires forall p :: p in e.policies ==> p.1.maxAttempts <= U32_MAX
    requires Decide(e, task, attempt).1.Retry?
    ensures attempt + 1 <= U32_MAX
  {
    LookupIsEntry(e.policies, task);
  }

  lemma {:induction false} LookupIsEntry<V>(entries: seq<(string, V)>, key: string)
    ensures Lookup(entries, key).Some? ==> (key, Lookup(entries, key).value) in entries
  {
    if entries != [] && entries[0].0 != key {
      LookupIsEntry(entries[1..], key);
    }
  }

  // ---- the engine object ----

  class PolicyEngine {
    var policies: seq<(TaskId, RetryPolicy)>
    var groupFailures: seq<(string, nat)>

    function Value(): Engine
      reads this
    {
      Engine(policies, groupFailures)
    }

    constructor ()
      ensures Value() == After([])
    {
      policies, groupFailures := [], [];
    }

    method RegisterPolicy(task: TaskId, policy: RetryPolicy)
      modifies this
      ensures Value() == Step(old(Value()), Register(task, policy))
    {
      policies := policies + [(task, policy)];
    }

    /** The position of the first entry of a group, if there is one. */
    method FindGroup(group: string) returns (i: nat)
      ensures i <= |groupFailures|
      ensures i < |groupFailures| ==> groupFailures[i].0 == group
      ensures forall k :: 0 <= k < i ==> groupFailures[k].0 != group
    {
      i := 0;
      while i < |groupFailures| && groupFailures[i].0 != group
        invariant i <= |groupFailures|
        invariant forall k :: 0 <= k < i ==> groupFailures[k].0 != group
      {
        i := i + 1;
      }
    }

    method Reset(group: string)
      modifies this
      ensures Value() == Step(old(Value()), ResetBreaker(group))
    {
      var i := FindGroup(group);
      ZeroAt(groupFailures, group, i);
      if i < |groupFailures| {
        groupFailures := groupFailures[i := (group, 0)];
      }
    }

    method ResetAll()
      modifies this
      ensures Value() == Step(old(Value()), ResetAllBreakers)
    {
      var i := 0;
      while i < |groupFailures|
        invariant i <= |groupFailures| == |old(groupFailures)| && policies == old(policies)
        invariant groupFailures[i..] == old(groupFailures)[i..]
        invariant groupFailures[..i] == ZeroAll(old(groupFailures)[..i])
      {
        ZeroAllSnoc(old(groupFailures)[..i], old(groupFailures)[i]);
        assert old(groupFailures)[..i + 1] == old(groupFailures)[..i] + [old(groupFailures)[i]];
        assert groupFailures[i] == old(groupFailures)[i];
        groupFailures := groupFailures[i := (groupFailures[i].0, 0)];
        i := i + 1;
      }
      assert groupFailures == groupFailures[..i] && old(groupFailures)[..i] == old(groupFailures);
    }

    method DecideFailure(task: TaskId, attempt: nat) returns (d: Decision)
      modifies this
      ensures (Value(), d) == Decide(old(Value()), task, attempt)
    {
      var found := Lookup(policies, task);
      if found.None? { return GiveUp; }
      var policy := found.value;
      if policy.group.Some? {
        var group := policy.group.value;
        if policy.threshold > 0 {
          var current := CountOf(groupFailures, group);
          if current >= policy.threshold { return CircuitBreak; }
        }
        var pos := FindGroup(group);
        BumpAt(groupFailures, group, pos);
        if pos < |groupFailures| {
          groupFailures := groupFailures[pos := (group, Wrap(groupFailures[pos].1 + 1))];
        } else {
          groupFailures := groupFailures + [(group, 1)];
        }
      }
      if attempt >= policy.maxAttempts {
        if policy.fallbacks != [] { return Fallback(policy.fallbacks[0]); }
        return GiveUp;
      }
      d := Retry(DelayMs(policy.backoff, attempt + 1));
    }
  }

  /** Updating the first entry of a group in place is what `Zero` does. */
  lemma {:induction false} ZeroAt(failures: seq<(string, nat)>, group: string, i: nat)
    requires i <= |failures| && (i < |failures| ==> failures[i].0 == group)
    requires forall k :: 0 <= k < i ==> failures[k].0 != group
    ensures Zero(failures, group) == if i < |failures| then failures[i := (group, 0)] else failures
  {
    if i > 0 {
      var rest := failures[1..];
      ZeroAt(rest, group, i - 1);
      assert failures == [failures[0]] + rest;
      if i < |failures| {
        assert failures[i := (group, 0)] == [failures[0]] + rest[i - 1 := (group, 0)];
      }
    }
  }

  /** Likewise for `Bump`, which also adds a group it does not know. */
  lemma {:induction false} BumpAt(failures: seq<(string, nat)>, group: string, i: nat)
    requires i <= |failures| && (i < |failures| ==> failures[i].0 == group)
    requires forall k :: 0 <= k < i ==> failures[k].0 != group
    ensures Bump(failures, group) == if i < |failures| then failures[i := (group, Wrap(failures[i].1 + 1))]
                                     else failures + [(group, 1)]
  {
    hide Wrap;
    if i > 0 {
      var rest := failures[1..];
      BumpAt(rest, group, i - 1);
      assert failures == [failures[0]] + rest;
      if i < |failures| {
        var e := (group, Wrap(failures[i].1 + 1));
        assert failures[i := e] == [failures[0]] + rest[i - 1 := e];
      }
    }
  }

  lemma {:induction false} ZeroAllSnoc(failures: seq<(string, nat)>, e: (string, nat))
    ensures ZeroAll(failures + [e]) == ZeroAll(failures) + [(e.0, 0)]
  {
    if failures != [] {
      assert (failures + [e])[1..] == failures[1..] + [e];
      ZeroAllSnoc(failures[1..], e);
    }
  }
}
