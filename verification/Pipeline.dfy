/** From proposals to actions: triage, conversion to tasks and actions, execution and bookkeeping. */
module Pipeline {
  import opened Prelude
  import opened Errors
  import A = Actions
  import opened Tasks
  import opened Proposals
  import opened TaskGraphs
  import opened AgentStatuses
  import R = Recovery

  // ---- tasks to actions ----

  datatype ConversionError =
    | EmptySessionId
    | UnsupportedKind(kind: TaskKind)
    | MissingField(field: string)
    | InvalidArguments

  /** White space in the sense of Unicode. */
  predicate IsSpace(c: char) {
    var n := c as int;
    || 9 <= n <= 13 || n == 0x20 || n == 0x85 || n == 0xA0 || n == 0x1680 || 0x2000 <= n <= 0x200A
    || n == 0x2028 || n == 0x2029 || n == 0x202F || n == 0x205F || n == 0x3000
  }

  predicate IsBlank(s: string) {
    forall c :: c in s ==> IsSpace(c)
  }

  function Field(args: Option<Arguments>, key: string): Option<Value> {
    if args.Some? && key in args.value then Some(args.value[key]) else None
  }

  function TextOf(v: Option<Value>): Option<string> {
    if v.Some? && v.value.Text? then Some(v.value.text) else None
  }

  function NumberOf(v: Option<Value>): Option<nat> {
    if v.Some? && v.value.Number? then Some(v.value.number) else None
  }

  /** A non-empty target, else a non-empty text argument. */
  function StringField(target: Option<string>, args: Option<Arguments>, key: string): Result<string, ConversionError> {
    if target.Some? && target.value != "" then Ok(target.value)
    else match TextOf(Field(args, key))
      case Some(s) => if s != "" then Ok(s) else Err(MissingField(key))
      case None => Err(MissingField(key))
  }

  /** The operation argument; `kind` stands in when `operation` is absent, not when it is no text. */
  function Operation(args: Option<Arguments>, default: string): string {
    var v := if Field(args, "operation").Some? then Field(args, "operation") else Field(args, "kind");
    match TextOf(v)
    case Some(s) => s
    case None => default
  }

  function Delay(args: Option<Arguments>): nat {
    match NumberOf(Field(args, "delay_ms")) case Some(n) => n case None => 0
  }

  function PowerVariant(args: Option<Arguments>): Result<A.ActionVariant, ConversionError> {
    var op := Operation(args, "reboot");
    if op == "reboot" || op == "restart" then Ok(A.SystemReboot(Delay(args)))
    else if op == "shutdown" then Ok(A.SystemShutdown(Delay(args)))
    else if op == "suspend" || op == "hibernate" then Ok(A.SystemSuspend)
    else Err(InvalidArguments)
  }

  function SecurityVariant(args: Option<Arguments>): Result<A.ActionVariant, ConversionError> {
    var op := Operation(args, "policy.reload");
    if op == "policy.reload" || op == "policy_reload" then Ok(A.PolicyReload) else Err(UnsupportedKind(SecurityControl))
  }

  function CleanupVariant(args: Option<Arguments>): Result<A.ActionVariant, ConversionError> {
    var kind := match TextOf(Field(args, "kind")) case Some(s) => s case None => "";
    if kind == "drop_page_cache" || kind == "free_disk_cache" || kind == "" then Ok(A.StorageStatus)
    else Err(UnsupportedKind(ProposeCleanup))
  }

  function CustomVariant(args: Option<Arguments>): Result<A.ActionVariant, ConversionError> {
    match TextOf(Field(args, "kind"))
    case None => Err(MissingField("kind"))
    case Some(kind) =>
      if kind == "restart_service" then
        match StringField(None, args, "service") case Ok(s) => Ok(A.ServiceRestart(s)) case Err(e) => Err(e)
      else if kind == "restart_app" then
        match StringField(None, args, "app_id") case Ok(s) => Ok(A.ApplicationLaunch(s)) case Err(e) => Err(e)
      else if kind == "inform_user" then Ok(A.ContextGet)
      else Err(UnsupportedKind(Custom))
  }

  function DeviceVariant(t: AgentTask): Result<A.ActionVariant, ConversionError> {
    match StringField(t.target, t.arguments, "device_id")
    case Err(e) => Err(e)
    case Ok(device) =>
      var enable := Field(t.arguments, "enable");
      if enable.Some? && enable.value == Flag(false) then Ok(A.DeviceDisable(device)) else Ok(A.DeviceEnable(device))
  }

  function DisplayVariant(t: AgentTask): Result<A.ActionVariant, ConversionError> {
    match StringField(t.target, t.arguments, "display_id")
    case Err(e) => Err(e)
    case Ok(display) =>
      match NumberOf(Field(t.arguments, "level"))
      case None => Err(MissingField("level"))
      case Some(level) => Ok(A.DisplaySetBrightness(display, Min(level, 100)))
  }

  function VariantFor(t: AgentTask): Result<A.ActionVariant, ConversionError> {
    match t.kind
    case RestartService =>
      (match StringField(t.target, t.arguments, "service") case Ok(s) => Ok(A.ServiceRestart(s)) case Err(e) => Err(e))
    case Notify => Ok(A.ContextGet)
    case DeviceControl => DeviceVariant(t)
    case DisplayControl => DisplayVariant(t)
    case PowerControl => PowerVariant(t.arguments)
    case SecurityControl => SecurityVariant(t.arguments)
    case ProposeCleanup => CleanupVariant(t.arguments)
    case Custom => CustomVariant(t.arguments)
    case ProposeUpdate | ProposeInstall | ProposeSecurityScan => Err(UnsupportedKind(t.kind))
  }

  function TaskToAction(session: string, t: AgentTask, id: A.ActionId): Result<A.Action, ConversionError> {
    if IsBlank(session) then Err(EmptySessionId)
    else match VariantFor(t)
      case Ok(v) => Ok(A.NewAction(id, session, v, t.description))
      case Err(e) => Err(e)
  }

  // ---- what an action says about the task it came from ----

  /** The arguments hold this text under this key. */
  predicate HasText(args: Option<Arguments>, key: string, s: string) {
    args.Some? && key in args.value && args.value[key] == Text(s)
  }

  predicate Lacks(args: Option<Arguments>, key: string) {
    args.None? || key !in args.value
  }

  /** The task asks for operation `op`: under `operation`, or under `kind` when there is no `operation`. */
  predicate AsksOperation(args: Option<Arguments>, op: string) {
    HasText(args, "operation", op) || (Lacks(args, "operation") && HasText(args, "kind", op))
  }

  /** The task names `s`: as its target, or under the key when it has no target. */
  predicate Names(t: AgentTask, key: string, s: string) {
    s != "" && (t.target == Some(s) || ((t.target.None? || t.target == Some("")) && HasText(t.arguments, key, s)))
  }

  /** Without a readable operation a power task reboots and a security task reloads the policy. */
  lemma OperationIs(args: Option<Arguments>, default: string)
    ensures forall op :: AsksOperation(args, op) ==> Operation(args, default) == op
    ensures (forall op :: !AsksOperation(args, op)) ==> Operation(args, default) == default
  {
    if args.Some? && "operation" in args.value && args.value["operation"].Text? {
      assert AsksOperation(args, args.value["operation"].text);
    } else if args.Some? && "operation" !in args.value && "kind" in args.value && args.value["kind"].Text? {
      assert AsksOperation(args, args.value["kind"].text);
    }
  }

  /** A power task suspends, shuts down or reboots as it asks, after the delay it asks for. */
  lemma PowerTask(t: AgentTask)
    requires t.kind == PowerControl
    ensures var op := Operation(t.arguments, "reboot");
            && (VariantFor(t).Err? <==> op !in {"reboot", "restart", "shutdown", "suspend", "hibernate"})
            && (VariantFor(t).Err? ==> VariantFor(t).error == InvalidArguments)
            && (VariantFor(t).Ok? ==>
                  var v := VariantFor(t).value;
                  && (v.SystemReboot? <==> op == "reboot" || op == "restart")
                  && (v.SystemShutdown? <==> op == "shutdown")
                  && (v.SystemSuspend? <==> op == "suspend" || op == "hibernate")
                  && (v.SystemReboot? || v.SystemShutdown? || v.SystemSuspend?)
                  && (v.SystemReboot? || v.SystemShutdown? ==>
                        if t.arguments.Some? && "delay_ms" in t.arguments.value && t.arguments.value["delay_ms"].Number?
                        then v.delayMs == t.arguments.value["delay_ms"].number else v.delayMs == 0))
  {
  }

  /** A device task disables the device it names exactly when it says `enable: false`, and else enables it. */
  lemma DeviceTask(t: AgentTask)
    requires t.kind == DeviceControl
    ensures VariantFor(t).Err? <==> forall d :: !Names(t, "device_id", d)
    ensures VariantFor(t).Err? ==> VariantFor(t).error == MissingField("device_id")
    ensures forall d :: Names(t, "device_id", d) ==>
              VariantFor(t) == Ok(if t.arguments.Some? && "enable" in t.arguments.value && t.arguments.value["enable"] == Flag(false)
                                  then A.DeviceDisable(d) else A.DeviceEnable(d))
  {
    NameFound(t, "device_id");
  }

  lemma NameFound(t: AgentTask, key: string)
    ensures StringField(t.target, t.arguments, key).Ok? ==> Names(t, key, StringField(t.target, t.arguments, key).value)
    ensures StringField(t.target, t.arguments, key).Err? ==>
              StringField(t.target, t.arguments, key).error == MissingField(key) && forall s :: !Names(t, key, s)
    ensures forall s :: Names(t, key, s) ==> StringField(t.target, t.arguments, key) == Ok(s)
  {
  }

  /** A display task sets the brightness of the display it names, to at most 100. */
  lemma DisplayTask(t: AgentTask)
    requires t.kind == DisplayControl
    ensures (forall d :: !Names(t, "display_id", d)) ==> VariantFor(t) == Err(MissingField("display_id"))
    ensures forall d :: Names(t, "display_id", d) ==>
              VariantFor(t) == if t.arguments.Some? && "level" in t.arguments.value && t.arguments.value["level"].Number?
                               then Ok(A.DisplaySetBrightness(d, Min(t.arguments.value["level"].number, 100)))
                               else Err(MissingField("level"))
  {
    NameFound(t, "display_id");
  }

  /** The remaining kinds. */
  lemma OtherTasks(t: AgentTask)
    ensures t.kind == RestartService ==>
              && (forall s :: Names(t, "service", s) ==> VariantFor(t) == Ok(A.ServiceRestart(s)))
              && ((forall s :: !Names(t, "service", s)) ==> VariantFor(t) == Err(MissingField("service")))
    ensures t.kind == Notify ==> VariantFor(t) == Ok(A.ContextGet)
    ensures t.kind == SecurityControl ==>
              VariantFor(t) == if Operation(t.arguments, "policy.reload") in {"policy.reload", "policy_reload"} then Ok(A.PolicyReload)
                               else Err(UnsupportedKind(SecurityControl))
    ensures t.kind == ProposeUpdate || t.kind == ProposeInstall || t.kind == ProposeSecurityScan ==> VariantFor(t) == Err(UnsupportedKind(t.kind))
    ensures t.kind == ProposeCleanup ==>
              (VariantFor(t) == Ok(A.StorageStatus) <==>
                 forall s :: HasText(t.arguments, "kind", s) ==> s == "drop_page_cache" || s == "free_disk_cache" || s == "")
    ensures t.kind == ProposeCleanup && VariantFor(t).Err? ==> VariantFor(t).error == UnsupportedKind(ProposeCleanup)
  {
    NameFound(t, "service");
    if t.kind == ProposeCleanup && t.arguments.Some? && "kind" in t.arguments.value && t.arguments.value["kind"].Text? {
      assert HasText(t.arguments, "kind", t.arguments.value["kind"].text);
    }
  }

  /** A custom task does one of three things, or fails by what it lacks. */
  lemma CustomTask(t: AgentTask)
    requires t.kind == Custom
    ensures (forall s :: !HasText(t.arguments, "kind", s)) ==> VariantFor(t) == Err(MissingField("kind"))
    ensures HasText(t.arguments, "kind", "inform_user") ==> VariantFor(t) == Ok(A.ContextGet)
    ensures HasText(t.arguments, "kind", "restart_service") ==>
              && (forall s :: s != "" && HasText(t.arguments, "service", s) ==> VariantFor(t) == Ok(A.ServiceRestart(s)))
              && ((forall s :: HasText(t.arguments, "service", s) ==> s == "") ==> VariantFor(t) == Err(MissingField("service")))
    ensures HasText(t.arguments, "kind", "restart_app") ==>
              && (forall s :: s != "" && HasText(t.arguments, "app_id", s) ==> VariantFor(t) == Ok(A.ApplicationLaunch(s)))
              && ((forall s :: HasText(t.arguments, "app_id", s) ==> s == "") ==> VariantFor(t) == Err(MissingField("app_id")))
    ensures forall s :: HasText(t.arguments, "kind", s) && s !in {"inform_user", "restart_service", "restart_app"} ==>
              VariantFor(t) == Err(UnsupportedKind(Custom))
  {
    var untargeted := t.(target := None);
    NameFound(untargeted, "service");
    NameFound(untargeted, "app_id");
    if t.arguments.Some? && "kind" in t.arguments.value && t.arguments.value["kind"].Text? {
      assert HasText(t.arguments, "kind", t.arguments.value["kind"].text);
    }
  }

  /** The action carries its task's description as reason, under the session and id given, with its own name as capability. */
  lemma ActionOfTask(session: string, t: AgentTask, id: A.ActionId)
    ensures TaskToAction(session, t, id) == Err(EmptySessionId) <==> forall c :: c in session ==> IsSpace(c)
    ensures TaskToAction(session, t, id).Ok? ==>
              var a := TaskToAction(session, t, id).value;
              && VariantFor(t) == Ok(a.variant) && a.id == id && a.sessionName == session && a.reason == t.description
              && a.capabilities == [A.ActionName(a.variant)] && A.CarriesTableRisk(a) && a.timeoutMs == 30000
    ensures TaskToAction(session, t, id).Err? && TaskToAction(session, t, id).error != EmptySessionId ==>
              VariantFor(t) == Err(TaskToAction(session, t, id).error)
  {
    hide VariantFor, IsSpace;
    NoVariantBlamesSession(t);
  }

  lemma NoVariantBlamesSession(t: AgentTask)
    ensures VariantFor(t) != Err(EmptySessionId)
  {
  }

  /** Spaces, tabs and line breaks are blank; letters, digits and hyphens are not. */
  lemma SpacesAre(c: char)
    ensures c == ' ' || c == '\t' || c == '\n' || c == '\r' ==> IsSpace(c)
    ensures 'a' <= c <= 'z' || 'A' <= c <= 'Z' || '0' <= c <= '9' || c == '-' ==> !IsSpace(c)
  {
  }

  /** The action a proposal turns into, if it turns into one. */
  function Converted(p: Proposal, taskId: TaskId, session: string, id: A.ActionId): Option<A.Action> {
    match ProposalToTask(p, taskId)
    case None => None
    case Some(t) => match TaskToAction(session, t, id) case Ok(a) => Some(a) case Err(_) => None
  }

  function ActionRank(r: A.ActionRisk): nat {
    match r case Low => 0 case Medium => 1 case High => 2 case Critical => 3
  }

  // ---- the risk gate ----

  /** The proposals triage lets through, in order. */
  function AutoApproved(ps: seq<Proposal>): seq<Proposal> {
    if ps == [] then [] else
    var rest := AutoApproved(ps[..|ps| - 1]);
    if RequiresConsent(ps[|ps| - 1].risk) then rest else rest + [ps[|ps| - 1]]
  }

  datatype ConsentRequest = ConsentRequest(session: string, proposal: string, title: string, risk: ProposalRisk, reason: string)

  function RequestFor(session: string, p: Proposal): ConsentRequest {
    ConsentRequest(session, p.id, p.title, p.risk, p.reasoning)
  }

  /** The proposals triage holds back, in order. */
  function HeldBack(ps: seq<Proposal>): seq<Proposal> {
    if ps == [] then [] else
    var rest := HeldBack(ps[..|ps| - 1]);
    if RequiresConsent(ps[|ps| - 1].risk) then rest + [ps[|ps| - 1]] else rest
  }

  lemma {:induction false} TriageMembers(ps: seq<Proposal>, p: Proposal)
    ensures p in AutoApproved(ps) <==> p in ps && p.risk == ProposalRisk.Low
    ensures p in HeldBack(ps) <==> p in ps && p.risk != ProposalRisk.Low
  {
    if ps != [] {
      var n := |ps| - 1;
      TriageMembers(ps[..n], p);
      assert ps == ps[..n] + [ps[n]];
    }
  }

  method TriageProposals(session: string, ps: seq<Proposal>) returns (auto: seq<Proposal>, consent: seq<ConsentRequest>)
    ensures auto == AutoApproved(ps)
    ensures |consent| == |HeldBack(ps)| && forall i :: 0 <= i < |consent| ==>
              var p := HeldBack(ps)[i]; consent[i] == ConsentRequest(session, p.id, p.title, p.risk, p.reasoning)
    ensures |auto| + |consent| == |ps|
  {
    auto, consent := [], [];
    for i := 0 to |ps|
      invariant auto == AutoApproved(ps[..i]) && |auto| + |consent| == i
      invariant |consent| == |HeldBack(ps[..i])|
      invariant forall k :: 0 <= k < |consent| ==> consent[k] == RequestFor(session, HeldBack(ps[..i])[k])
    {
      assert ps[..i + 1][..i] == ps[..i];
      if RequiresConsent(ps[i].risk) {
        consent := consent + [RequestFor(session, ps[i])];
      } else {
        auto := auto + [ps[i]];
      }
    }
    assert ps[..|ps|] == ps;
  }

  /**
   Whatever is proposed, what validation accepts and triage lets through converts, if at all,
   to a Low-risk action: reading the context, or a brightness of at most 100.
   */
  lemma RiskGate(drafts: seq<Proposal>, observations: set<string>, p: Proposal, taskId: TaskId, session: string, id: A.ActionId)
    requires p in AutoApproved(Valid(drafts, observations))
    requires Converted(p, taskId, session, id).Some?
    ensures var a := Converted(p, taskId, session, id).value;
            && a.risk == A.ActionRisk.Low
            && (a.variant == A.ContextGet || (a.variant.DisplaySetBrightness? && a.variant.level <= 100))
  {
    hide AutoApproved, Valid, ProposalIssue, IsBlank, VariantFor, A.ClassifiedRisk;
    TriageMembers(Valid(drafts, observations), p);
    ValidMembers(drafts, observations, p);
    ValidIff(p, observations);
    HarmlessVariant(ProposalToTask(p, taskId).value);
  }

  /** What tasks of the kinds that may claim Low risk turn into. */
  lemma HarmlessVariant(t: AgentTask)
    requires VariantFor(t).Ok? && Rank(MinRisk(t.kind)) == 0
    ensures var v := VariantFor(t).value;
            && A.ClassifiedRisk(v) == A.ActionRisk.Low
            && (v == A.ContextGet || (v.DisplaySetBrightness? && v.level <= 100))
  {
  }

  /** Seen from the other side: an action of Medium or higher risk comes from a proposal held back for consent. */
  lemma RiskyActionsWereHeldBack(drafts: seq<Proposal>, observations: set<string>, p: Proposal, taskId: TaskId, session: string, id: A.ActionId)
    requires p in Valid(drafts, observations)
    requires Converted(p, taskId, session, id).Some? && Converted(p, taskId, session, id).value.risk != A.ActionRisk.Low
    ensures p in HeldBack(Valid(drafts, observations))
  {
    TriageMembers(Valid(drafts, observations), p);
    if p in AutoApproved(Valid(drafts, observations)) {
      RiskGate(drafts, observations, p, taskId, session, id);
    }
  }

  /**
   Triage alone is no gate: it reads the risk a proposal claims. Of the proposals it lets
   through, exactly those of the kinds below can only become Low-risk actions.
   */
  lemma TriageAloneIff(p: Proposal, taskId: TaskId, session: string, id: A.ActionId)
    requires p in AutoApproved([p]) && Converted(p, taskId, session, id).Some?
    ensures Converted(p, taskId, session, id).value.risk == A.ActionRisk.Low <==>
              || p.kind == Notify || p.kind == DisplayControl || p.kind == ProposeCleanup
              || (p.kind == Custom && TextOf(Field(p.arguments, "kind")) == Some("inform_user"))
  {
    hide AutoApproved, IsBlank, VariantFor, A.ClassifiedRisk, TextOf, Field;
    LowVariantIff(ProposalToTask(p, taskId).value);
  }

  /** Which tasks become Low-risk actions. */
  lemma LowVariantIff(t: AgentTask)
    requires VariantFor(t).Ok?
    ensures A.ClassifiedRisk(VariantFor(t).value) == A.ActionRisk.Low <==>
              || t.kind == Notify || t.kind == DisplayControl || t.kind == ProposeCleanup
              || (t.kind == Custom && TextOf(Field(t.arguments, "kind")) == Some("inform_user"))
  {
    if t.kind == Custom {
      LowCustom(t.arguments);
    } else {
      hide CustomVariant, TextOf, Field, StringField, Operation, Delay;
    }
  }

  lemma LowCustom(args: Option<Arguments>)
    requires CustomVariant(args).Ok?
    ensures A.ClassifiedRisk(CustomVariant(args).value) == A.ActionRisk.Low <==> TextOf(Field(args, "kind")) == Some("inform_user")
  {
  }

  lemma UnvalidatedProposalSlipsThrough() returns (p: Proposal)
    ensures p in AutoApproved([p])
    ensures Converted(p, "t", "s", 0).Some? && Converted(p, "t", "s", 0).value.risk == A.ActionRisk.Medium
  {
    p := Proposal("p", RestartService, "t", "d", ProposalRisk.Low, "r", [], 0, Some("svc"), None);
    TriageMembers([p], p);
    assert "s"[0] in "s" && !IsSpace("s"[0]);
  }

  /**
   Consent is given for the risk the proposal claims. The action's own risk stays within it,
   except when a power control proposal claims High and does not suspend.
   */
  lemma ConsentCoversActionIff(p: Proposal, observations: set<string>, taskId: TaskId, session: string, id: A.ActionId)
    requires ProposalIssue(p, observations).None? && Converted(p, taskId, session, id).Some?
    ensures ActionRank(Converted(p, taskId, session, id).value.risk) <= Rank(p.risk) <==>
              !(p.kind == PowerControl && p.risk == ProposalRisk.High
                && Operation(p.arguments, "reboot") !in {"suspend", "hibernate"})
  {
    ValidIff(p, observations);
  }

  /** A power control proposal that claims High and reboots: consent to High runs a Critical action. */
  lemma ConsentExceeded() returns (p: Proposal)
    ensures ProposalIssue(p, {}).None? && p.risk == ProposalRisk.High
    ensures Converted(p, "t", "s", 0).Some? && Converted(p, "t", "s", 0).value.risk == A.ActionRisk.Critical
    ensures ActionRank(Converted(p, "t", "s", 0).value.risk) > Rank(p.risk)
  {
    p := Proposal("p", PowerControl, "t", "d", ProposalRisk.High, "r", [], 0, None, None);
    assert "s"[0] in "s" && !IsSpace("s"[0]);
  }

  // ---- running approved proposals ----

  datatype RunError = ProposalToTaskFailed | TaskToActionFailed(reason: ConversionError) | ExecutionFailed(error: AgentError)

  /** `attempts` counts the calls to the executor. */
  datatype RunResult = RunResult(proposal: string, task: TaskId, success: Option<bool>, error: Option<RunError>, attempts: nat)

  function NoteFor(r: RunResult): Option<string> {
    match r.error
    case Some(TaskToActionFailed(_)) => Some("task_to_action failed")
    case Some(ExecutionFailed(_)) => Some("execution failed")
    case _ => Some("action completed")
  }

  lemma InsertThenRemove(tasks: seq<AgentTask>, t: AgentTask)
    requires GraphOk(tasks) && InsertError(tasks, t).None?
    ensures Removed(tasks + [t], t.id) == tasks
  {
    assert (tasks + [t])[|tasks|] == t;
    assert Position(tasks + [t], t.id) == |tasks|;
  }

  /**
   Runs one proposal: the task is put on the live graph, and taken off again with a history
   entry whatever happens, so the graph comes out as it went in. Nothing here asks for consent.
   */
  method ExecuteProposal(status: AgentStatus, session: string, p: Proposal, taskId: TaskId, id: A.ActionId, now: nat, answers: R.Answers)
    returns (r: RunResult)
    requires status.Valid() && taskId != ""
    modifies status, status.graph
    ensures status.Valid() && status.graph.tasks == old(status.graph.tasks)
    ensures status.observed == old(status.observed)
    ensures r.proposal == p.id && r.task == taskId && r.attempts <= 4
    ensures r.attempts >= 1 <==> Converted(p, taskId, session, id).Some? && r.error != Some(ProposalToTaskFailed)
    ensures r.attempts >= 1 ==>
              match answers(r.attempts)
              case Ok(s) => r.success == Some(s) && r.error == None
              case Err(e) => r.success == None && r.error == Some(ExecutionFailed(e))
    ensures r.attempts >= 1 && Converted(p, taskId, session, id).value.risk != A.ActionRisk.Low ==> r.attempts == 1
    ensures r.attempts == 0 ==> r.success == None && r.error.Some?
    ensures r.error == Some(ProposalToTaskFailed) <==>
              match ProposalToTask(p, taskId) case None => true case Some(t) => InsertError(old(status.graph.tasks), t).Some?
    ensures r.error == Some(ProposalToTaskFailed) ==> status.finished == old(status.finished)
    ensures r.error != Some(ProposalToTaskFailed) ==>
              && ProposalToTask(p, taskId).Some?
              && status.finished == old(status.finished)
                   + [HistoryEntry(ProposalToTask(p, taskId).value, if r.success == Some(true) then Done else Failed, now,
                                   Some(if r.success.Some? then "action completed"
                                        else if r.attempts == 0 then "task_to_action failed" else "execution failed"))]
  {
    hide TaskToAction, R.EndsAt, GraphOk, A.ClassifiedRisk, NewTask;
    ghost var before := status.graph.tasks;
    var converted := ProposalToTask(p, taskId);
    if converted.None? { return RunResult(p.id, taskId, None, Some(ProposalToTaskFailed), 0); }
    var task := converted.value;
    TaskCarriesId(p, taskId);
    var inserted := status.InsertTask(task);
    if inserted.Err? { return RunResult(p.id, taskId, None, Some(ProposalToTaskFailed), 0); }
    InsertThenRemove(before, task);
    var action := TaskToAction(session, task, id);
    if action.Err? {
      r := RunResult(p.id, taskId, None, Some(TaskToActionFailed(action.error)), 0);
      var gone := status.CompleteTask(taskId, Failed, now, NoteFor(r));
      OnlyOne(before, task, gone);
      return;
    }
    RiskOfConverted(session, task, id);
    var outcome, attempts := R.ExecuteWithRecovery(action.value.variant, answers);
    match outcome {
      case Ok(success) => r := RunResult(p.id, taskId, Some(success), None, attempts);
      case Err(e) => r := RunResult(p.id, taskId, None, Some(ExecutionFailed(e)), attempts);
    }
    var gone := status.CompleteTask(taskId, if r.success == Some(true) then Done else Failed, now, NoteFor(r));
    OnlyOne(before, task, gone);
  }

  lemma TaskCarriesId(p: Proposal, taskId: TaskId)
    ensures ProposalToTask(p, taskId).Some? ==> ProposalToTask(p, taskId).value.id == taskId
  {
  }

  lemma RiskOfConverted(session: string, t: AgentTask, id: A.ActionId)
    ensures TaskToAction(session, t, id).Ok? ==>
              TaskToAction(session, t, id).value.risk == A.ClassifiedRisk(TaskToAction(session, t, id).value.variant)
  {
  }

  /** The task completed is the one inserted. */
  lemma OnlyOne(tasks: seq<AgentTask>, t: AgentTask, gone: Option<AgentTask>)
    requires InsertError(tasks, t).None?
    requires gone.Some? <==> Live(tasks + [t], t.id)
    requires gone.Some? ==> gone.value in tasks + [t] && gone.value.id == t.id
    ensures gone == Some(t)
  {
    assert (tasks + [t])[|tasks|] == t;
  }

  /** How many proposals made it onto the graph, and so into the history. */
  function Recorded(results: seq<RunResult>): nat {
    if results == [] then 0 else
    Recorded(results[..|results| - 1]) + if results[|results| - 1].error == Some(ProposalToTaskFailed) then 0 else 1
  }

  /** Runs a batch: one result per proposal, and the live graph is left as it was. */
  method ExecuteBatch(status: AgentStatus, session: string, ps: seq<Proposal>, ids: seq<TaskId>, id: A.ActionId, now: nat, answers: seq<R.Answers>)
    returns (results: seq<RunResult>)
    requires status.Valid() && |ids| == |answers| == |ps| && "" !in ids
    modifies status, status.graph
    ensures status.Valid() && status.graph.tasks == old(status.graph.tasks)
    ensures |results| == |ps| && forall i :: 0 <= i < |ps| ==>
              results[i].proposal == ps[i].id && results[i].task == ids[i] && results[i].attempts <= 4
    ensures old(status.finished) <= status.finished && |status.finished| == |old(status.finished)| + Recorded(results)
  {
    results := [];
    for i := 0 to |ps|
      invariant status.Valid() && status.graph.tasks == old(status.graph.tasks)
      invariant |results| == i && forall k :: 0 <= k < i ==>
                  results[k].proposal == ps[k].id && results[k].task == ids[k] && results[k].attempts <= 4
      invariant old(status.finished) <= status.finished && |status.finished| == |old(status.finished)| + Recorded(results)
    {
      var r := ExecuteProposal(status, session, ps[i], ids[i], id, now, answers[i]);
      assert (results + [r])[..i] == results;
      results := results + [r];
    }
  }
}
