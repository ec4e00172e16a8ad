/** Bounded recovery: which failures are retried, and the loop that retries them. */
module Recovery {
  import opened Prelude
  import opened Errors
  import opened Actions
  import opened Backoff

  datatype RecoveryAction = Retry | Abort | Skip

  datatype FailureKind = Transient | Permanent | Unknown

  function FromError(e: AgentError): FailureKind {
    match e
    case Ipc | Timeout => Transient
    case CapabilityDenied | PolicyDenied | ApprovalRequired | Validation | NotFound => Permanent
    case _ => Unknown
  }

  datatype RecoveryPolicy = RecoveryPolicy(maxRetries: nat, backoffBaseMs: nat, backoffMaxMs: nat, timeoutMs: Option<nat>)

  const NO_RETRY := RecoveryPolicy(0, 100, 5000, None)
  const TRANSIENT_DEFAULT := RecoveryPolicy(3, 100, 5000, Some(2000))

  function RecoveryPolicyFor(v: ActionVariant): RecoveryPolicy {
    match v
    case ApplicationLaunch(_) | ApplicationClose(_) => NO_RETRY
    case FileCreate(_, _) | FileWrite(_, _) | FileRename(_, _) | FileMove(_, _) | FileDelete(_) => NO_RETRY
    case DeviceEnable(_) | DeviceDisable(_) => NO_RETRY
    case DisplaySetResolution(_, _, _) | DisplaySetBrightness(_, _) => NO_RETRY
    case CredentialSeal(_, _) | CredentialUnseal(_) | PolicyReload => NO_RETRY
    case SystemReboot(_) | SystemShutdown(_) | SystemSuspend => NO_RETRY
    case WindowClose(_, _) | ServiceRestart(_) => NO_RETRY
    case WindowList | WindowFocus(_, _) | WindowMinimize(_) | WindowMaximize(_) => TRANSIENT_DEFAULT
    case FileList(_) | FileRead(_) | FileSearch(_, _) => TRANSIENT_DEFAULT
    case ProcessList | ProcessInspect(_, _) => TRANSIENT_DEFAULT
    case NetworkStatus | NetworkInterfaces => TRANSIENT_DEFAULT
    case SystemStatus | SystemInfo | SystemResources | SystemUptime => TRANSIENT_DEFAULT
    case StorageStatus | ContextGet => TRANSIENT_DEFAULT
    case DisplayList | DeviceList | DeviceInspect(_) => TRANSIENT_DEFAULT
  }

  /** The variants that only look, or move windows about. */
  predicate OnlyLooks(v: ActionVariant) {
    || v.WindowList? || v.WindowFocus? || v.WindowMinimize? || v.WindowMaximize?
    || v.FileList? || v.FileRead? || v.FileSearch? || v.ProcessList? || v.ProcessInspect?
    || v.NetworkStatus? || v.NetworkInterfaces? || v.SystemStatus? || v.SystemInfo? || v.SystemResources? || v.SystemUptime?
    || v.StorageStatus? || v.ContextGet? || v.DisplayList? || v.DeviceList? || v.DeviceInspect?
  }

  /** The retries an action gets. */
  function Retries(v: ActionVariant): nat {
    if OnlyLooks(v) then 3 else 0
  }

  /** Retried, three times, are exactly the actions that only look; with setting the brightness they are the Low-risk ones. */
  lemma RetriedIffHarmless(v: ActionVariant)
    ensures RecoveryPolicyFor(v).maxRetries == Retries(v)
    ensures ClassifiedRisk(v) == ActionRisk.Low <==> OnlyLooks(v) || v.DisplaySetBrightness?
    ensures RecoveryPolicyFor(v) == NO_RETRY || RecoveryPolicyFor(v) == TRANSIENT_DEFAULT
  {
  }

  function DecideRecovery(p: RecoveryPolicy, attempt: nat, kind: FailureKind, optional: bool): RecoveryAction
    requires attempt >= 1
  {
    var stop := if optional then Skip else Abort;
    if attempt > p.maxRetries then stop
    else match kind
      case Permanent => stop
      case Unknown => if attempt > 1 then stop else Retry
      case Transient => Retry
  }

  /** When a step is tried again, and that giving up on an optional step skips it. */
  lemma RetriesIff(p: RecoveryPolicy, attempt: nat, kind: FailureKind, optional: bool)
    requires attempt >= 1
    ensures DecideRecovery(p, attempt, kind, optional) == Retry <==> attempt <= p.maxRetries && (kind == Transient || (kind == Unknown && attempt == 1))
    ensures DecideRecovery(p, attempt, kind, optional) == Skip <==> optional && DecideRecovery(p, attempt, kind, !optional) == Abort
  {
  }

  /** An action that only looks waits 100, 200 and 400 milliseconds before its three retries. */
  lemma WaitsBetweenAttempts(v: ActionVariant)
    requires OnlyLooks(v)
    ensures var p := RecoveryPolicyFor(v);
            && BackoffDelay(p.backoffBaseMs, p.backoffMaxMs, 1) == 100
            && BackoffDelay(p.backoffBaseMs, p.backoffMaxMs, 2) == 200
            && BackoffDelay(p.backoffBaseMs, p.backoffMaxMs, 3) == 400
            && p.timeoutMs == Some(2000)
  {
    assert Pow2(0) == 1 && Pow2(1) == 2 && Pow2(2) == 4;
  }

  /** Errors that pass, and errors that no retry can mend. */
  predicate Passing(e: AgentError) {
    e == Ipc || e == Timeout
  }

  predicate Hopeless(e: AgentError) {
    e == CapabilityDenied || e == PolicyDenied || e == ApprovalRequired || e == Validation || e == NotFound
  }

  /** What the executor answers at each attempt, the first being number 1. */
  type Answers = nat -> Result<bool, AgentError>

  /** The loop ends at attempt `n`: it succeeded, must not be retried, or may not be retried any more. */
  predicate EndsAt(retries: nat, answers: Answers, n: nat) {
    match answers(n)
    case Ok(_) => true
    case Err(e) => Hopeless(e) || (!Passing(e) && n > 1) || n > retries
  }

  method ExecuteWithRecovery(variant: ActionVariant, answers: Answers)
    returns (r: Result<bool, AgentError>, attempts: nat)
    ensures 1 <= attempts <= Retries(variant) + 1 <= 4
    ensures EndsAt(Retries(variant), answers, attempts)
    ensures forall n: nat :: 1 <= n < attempts ==> !EndsAt(Retries(variant), answers, n)
    ensures r == answers(attempts)
    ensures ClassifiedRisk(variant) != ActionRisk.Low ==> attempts == 1
  {
    var policy := RecoveryPolicyFor(variant);
    RetriedIffHarmless(variant);
    attempts := 0;
    while true
      invariant attempts <= policy.maxRetries
      invariant forall n: nat :: 1 <= n <= attempts ==> !EndsAt(policy.maxRetries, answers, n)
      decreases policy.maxRetries + 1 - attempts
    {
      attempts := Min(attempts + 1, U32_MAX);
      r := answers(attempts);
      if r.Ok? { return; }
      var decision := DecideRecovery(policy, attempts, FromError(r.error), false);
      if decision != Retry { return; }
    }
  }
}
