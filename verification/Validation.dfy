/** The validator: schema, capability and policy stages, each reporting what it found. */
module Validation {
  import opened Prelude
  import opened Actions
  import opened Text

  datatype Issue =
    | MissingSession
    | MissingReason
    | MissingApplication
    | MissingPath
    | SystemDirectory
    | MissingCapability(capability: string)
    | ShellExecution

  datatype ValidationResult = ValidationResult(
    valid: bool,
    schemaOk: bool,
    capabilityOk: bool,
    policyOk: bool,
    risk: ActionRisk,
    requiresConfirmation: bool,
    errors: seq<Issue>)

  const SYSTEM_DIRECTORIES := {"/", "/root", "/etc"}

  /** The first structural problem of an action, if any. */
  function SchemaIssue(a: Action): Option<Issue> {
    if a.sessionName == "" then Some(MissingSession)
    else if a.reason == "" then Some(MissingReason)
    else match a.variant
      case ApplicationLaunch(app) => if app == "" then Some(MissingApplication) else None
      case FileRead(path) => if path == "" then Some(MissingPath) else None
      case FileList(path) => if path == "" then Some(MissingPath) else None
      case FileDelete(path) =>
        if path == "" then Some(MissingPath)
        else if path in SYSTEM_DIRECTORIES then Some(SystemDirectory)
        else None
      case _ => None
  }

  /** The defect an issue names, whatever else is wrong with the action. */
  predicate HasDefect(a: Action, e: Issue) {
    match e
    case MissingSession => a.sessionName == ""
    case MissingReason => a.reason == ""
    case MissingApplication => a.variant.ApplicationLaunch? && a.variant.applicationId == ""
    case MissingPath => (a.variant.FileRead? || a.variant.FileList? || a.variant.FileDelete?) && a.variant.path == ""
    case SystemDirectory => a.variant.FileDelete? && (a.variant.path == "/" || a.variant.path == "/root" || a.variant.path == "/etc")
    case MissingCapability(_) => false
    case ShellExecution => false
  }

  /** Session and reason come first: what the action is aimed at is only looked at when both are there. */
  function Precedence(e: Issue): nat {
    match e
    case MissingSession => 0
    case MissingReason => 1
    case _ => 2
  }

  predicate LooksLikeShell(name: string) {
    Contains(name, "sh ") || Contains(name, "bash ") || Contains(name, "exec")
  }

  predicate IsValid(granted: seq<string>, a: Action) {
    && SchemaIssue(a).None?
    && (forall c :: c in a.capabilities ==> c in granted)
    && !LooksLikeShell(ActionName(a.variant))
  }

  /** The capabilities an action asks for and was not granted, in order, duplicates kept. */
  function Missing(granted: seq<string>, wanted: seq<string>): seq<Issue> {
    if wanted == [] then [] else
    var rest := Missing(granted, wanted[..|wanted| - 1]);
    var c := wanted[|wanted| - 1];
    if c in granted then rest else rest + [MissingCapability(c)]
  }

  function Errors(granted: seq<string>, a: Action): seq<Issue> {
    (match SchemaIssue(a) case Some(e) => [e] case None => [])
    + Missing(granted, a.capabilities)
    + (if LooksLikeShell(ActionName(a.variant)) then [ShellExecution] else [])
  }

  lemma {:induction false} MissingEmpty(granted: seq<string>, wanted: seq<string>)
    ensures Missing(granted, wanted) == [] <==> forall c :: c in wanted ==> c in granted
  {
    if wanted != [] {
      var n := |wanted| - 1;
      MissingEmpty(granted, wanted[..n]);
      assert wanted == wanted[..n] + [wanted[n]];
    }
  }

  /** A verdict of valid and an empty error list are the same thing. */
  lemma ValidIffNoErrors(granted: seq<string>, a: Action)
    ensures IsValid(granted, a) <==> Errors(granted, a) == []
  {
    MissingEmpty(granted, a.capabilities);
  }

  /** What the error list holds: a schema issue, one entry for each capability withheld, and a policy issue, each only when it applies. */
  lemma ErrorsHold(granted: seq<string>, a: Action)
    ensures forall c :: MissingCapability(c) in Errors(granted, a) <==> c in a.capabilities && c !in granted
    ensures ShellExecution in Errors(granted, a) <==> LooksLikeShell(ActionName(a.variant))
    ensures forall e :: e in Errors(granted, a) && !e.MissingCapability? && !e.ShellExecution? ==> HasDefect(a, e)
    ensures |Errors(granted, a)| <= |a.capabilities| + 2
  {
    hide LooksLikeShell, ActionName;
    SchemaIssueMeans(a);
    MissingHolds(granted, a.capabilities);
  }

  lemma {:induction false} MissingHolds(granted: seq<string>, wanted: seq<string>)
    ensures forall c :: MissingCapability(c) in Missing(granted, wanted) <==> c in wanted && c !in granted
    ensures forall e :: e in Missing(granted, wanted) ==> e.MissingCapability?
    ensures |Missing(granted, wanted)| <= |wanted|
  {
    if wanted != [] {
      var n := |wanted| - 1;
      MissingHolds(granted, wanted[..n]);
      assert wanted == wanted[..n] + [wanted[n]];
    }
  }

  /** The schema stage passes exactly the actions without a defect, and names one of the foremost defects of the others. */
  lemma SchemaIssueMeans(a: Action)
    ensures SchemaIssue(a).None? <==> forall e :: !HasDefect(a, e)
    ensures SchemaIssue(a).Some? ==>
              var e := SchemaIssue(a).value;
              HasDefect(a, e) && forall o :: HasDefect(a, o) ==> Precedence(e) <= Precedence(o)
  {
    if SchemaIssue(a).Some? {
      assert HasDefect(a, SchemaIssue(a).value);
    }
  }

  method ValidateSchema(a: Action, errors: seq<Issue>) returns (ok: bool, found: seq<Issue>)
    ensures ok <==> forall e :: !HasDefect(a, e)
    ensures ok ==> found == errors
    ensures !ok ==> exists e :: found == errors + [e] && HasDefect(a, e)
                             && forall o :: HasDefect(a, o) ==> Precedence(e) <= Precedence(o)
    ensures found == errors + match SchemaIssue(a) case Some(e) => [e] case None => []
  {
    SchemaIssueMeans(a);
    found := errors;
    if a.sessionName == "" { return false, found + [MissingSession]; }
    if a.reason == "" { return false, found + [MissingReason]; }
    match a.variant {
      case ApplicationLaunch(app) =>
        if app == "" { return false, found + [MissingApplication]; }
      case FileRead(path) =>
        if path == "" { return false, found + [MissingPath]; }
      case FileList(path) =>
        if path == "" { return false, found + [MissingPath]; }
      case FileDelete(path) =>
        if path == "" { return false, found + [MissingPath]; }
        if path == "/" || path == "/root" || path == "/etc" { return false, found + [SystemDirectory]; }
      case _ =>
    }
    ok := true;
  }

  method ValidateCapabilities(granted: seq<string>, a: Action, errors: seq<Issue>) returns (ok: bool, found: seq<Issue>)
    ensures ok <==> forall c :: c in a.capabilities ==> c in granted
    ensures found == errors + Missing(granted, a.capabilities)
  {
    ok, found := true, errors;
    for i := 0 to |a.capabilities|
      invariant ok <==> Missing(granted, a.capabilities[..i]) == []
      invariant found == errors + Missing(granted, a.capabilities[..i])
    {
      assert a.capabilities[..i + 1][..i] == a.capabilities[..i];
      if a.capabilities[i] !in granted {
        found := found + [MissingCapability(a.capabilities[i])];
        ok := false;
      }
    }
    assert a.capabilities[..|a.capabilities|] == a.capabilities;
    MissingEmpty(granted, a.capabilities);
  }

  method Validate(granted: seq<string>, a: Action) returns (r: ValidationResult)
    ensures r.valid <==> IsValid(granted, a)
    ensures r.valid <==> r.errors == []
    ensures r.errors == Errors(granted, a)
    ensures r.schemaOk <==> SchemaIssue(a).None?
    ensures r.capabilityOk <==> forall c :: c in a.capabilities ==> c in granted
    ensures r.policyOk <==> !LooksLikeShell(ActionName(a.variant))
    ensures r.risk == a.risk && (r.requiresConfirmation <==> NeedsConfirmation(a.risk))
  {
    var schemaOk, e1 := ValidateSchema(a, []);
    var capabilityOk, e2 := ValidateCapabilities(granted, a, e1);
    var policyOk := true;
    var errors := e2;
    if LooksLikeShell(ActionName(a.variant)) {
      errors := errors + [ShellExecution];
      policyOk := false;
    }
    r := ValidationResult(schemaOk && capabilityOk && policyOk, schemaOk, capabilityOk, policyOk,
                          a.risk, a.risk == High || a.risk == Critical, errors);
    ValidIffNoErrors(granted, a);
  }
}
