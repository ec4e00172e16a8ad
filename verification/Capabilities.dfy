/** What an action as the constructor builds it needs in order to be valid, by name. */
module Capabilities {
  import opened Actions
  import opened Text
  import opened Validation

  /** Least privilege: a valid action was granted the capability of exactly its own kind. */
  lemma NeedsItsCapability(granted: seq<string>, id: ActionId, name: string, v: ActionVariant, reason: string)
    requires IsValid(granted, NewAction(id, name, v, reason))
    ensures v.ApplicationLaunch? ==> "application.launch" in granted
    ensures v.ApplicationClose? ==> "application.close" in granted
    ensures v.WindowList? ==> "window.list" in granted
    ensures v.WindowFocus? ==> "window.focus" in granted
    ensures v.WindowMinimize? ==> "window.minimize" in granted
    ensures v.WindowMaximize? ==> "window.maximize" in granted
    ensures v.WindowClose? ==> "window.close" in granted
    ensures v.FileList? ==> "file.list" in granted
    ensures v.FileRead? ==> "file.read" in granted
    ensures v.FileCreate? ==> "file.create" in granted
    ensures v.FileWrite? ==> "file.write" in granted
    ensures v.FileSearch? ==> "file.search" in granted
    ensures v.FileRename? ==> "file.rename" in granted
    ensures v.FileMove? ==> "file.move" in granted
    ensures v.FileDelete? ==> "file.delete" in granted
    ensures v.ProcessList? ==> "process.list" in granted
    ensures v.ProcessInspect? ==> "process.inspect" in granted
    ensures v.NetworkStatus? ==> "network.status" in granted
    ensures v.NetworkInterfaces? ==> "network.interfaces" in granted
    ensures v.SystemStatus? ==> "system.status" in granted
    ensures v.SystemInfo? ==> "system.info" in granted
    ensures v.SystemResources? ==> "system.resources" in granted
    ensures v.SystemUptime? ==> "system.uptime" in granted
    ensures v.ServiceRestart? ==> "service.restart" in granted
    ensures v.StorageStatus? ==> "storage.status" in granted
    ensures v.ContextGet? ==> "context.get" in granted
    ensures v.DisplayList? ==> "display.list" in granted
    ensures v.DisplaySetBrightness? ==> "display.set_brightness" in granted
    ensures v.DisplaySetResolution? ==> "display.set_resolution" in granted
    ensures v.DeviceList? ==> "device.list" in granted
    ensures v.DeviceInspect? ==> "device.inspect" in granted
    ensures v.DeviceEnable? ==> "device.enable" in granted
    ensures v.DeviceDisable? ==> "device.disable" in granted
    ensures v.SystemReboot? ==> "system.reboot" in granted
    ensures v.SystemShutdown? ==> "system.shutdown" in granted
    ensures v.SystemSuspend? ==> "system.suspend" in granted
    ensures v.CredentialSeal? ==> "credential.seal" in granted
    ensures v.CredentialUnseal? ==> "credential.unseal" in granted
    ensures v.PolicyReload? ==> "policy.reload" in granted
  {
    var a := NewAction(id, name, v, reason);
    assert ActionName(v) in a.capabilities;
  }

  // ---- the policy stage ----

  predicate OfDesktop(v: ActionVariant) {
    || v.ApplicationLaunch? || v.ApplicationClose? || v.WindowList? || v.WindowFocus? || v.WindowMinimize? || v.WindowMaximize?
    || v.WindowClose? || v.DisplayList? || v.DisplaySetBrightness? || v.DisplaySetResolution?
  }

  predicate OfFiles(v: ActionVariant) {
    || v.FileList? || v.FileRead? || v.FileCreate? || v.FileWrite? || v.FileSearch? || v.FileRename?
    || v.FileMove? || v.FileDelete?
  }

  predicate OfMachine(v: ActionVariant) {
    || v.ProcessList? || v.ProcessInspect? || v.NetworkStatus? || v.NetworkInterfaces? || v.ServiceRestart? || v.StorageStatus?
    || v.ContextGet?
  }

  predicate OfDevices(v: ActionVariant) {
    || v.DeviceList? || v.DeviceInspect? || v.DeviceEnable? || v.DeviceDisable?
  }

  predicate OfSystem(v: ActionVariant) {
    || v.SystemStatus? || v.SystemInfo? || v.SystemResources? || v.SystemUptime? || v.SystemReboot? || v.SystemShutdown?
    || v.SystemSuspend?
  }

  predicate OfSecrets(v: ActionVariant) {
    || v.CredentialSeal? || v.CredentialUnseal? || v.PolicyReload?
  }

  lemma NoSpaceDesktop(v: ActionVariant)
    requires OfDesktop(v)
    ensures ' ' !in ActionName(v)
  {
  }

  lemma NoXDesktop(v: ActionVariant)
    requires OfDesktop(v) && !v.WindowMaximize?
    ensures 'x' !in ActionName(v)
  {
  }

  lemma NoSpaceFiles(v: ActionVariant)
    requires OfFiles(v)
    ensures ' ' !in ActionName(v)
  {
  }

  lemma NoXFiles(v: ActionVariant)
    requires OfFiles(v)
    ensures 'x' !in ActionName(v)
  {
  }

  lemma NoSpaceMachine(v: ActionVariant)
    requires OfMachine(v)
    ensures ' ' !in ActionName(v)
  {
  }

  lemma NoXMachine(v: ActionVariant)
    requires OfMachine(v) && !v.ContextGet?
    ensures 'x' !in ActionName(v)
  {
  }

  lemma NoSpaceDevices(v: ActionVariant)
    requires OfDevices(v)
    ensures ' ' !in ActionName(v)
  {
  }

  lemma NoXDevices(v: ActionVariant)
    requires OfDevices(v)
    ensures 'x' !in ActionName(v)
  {
  }

  lemma NoSpaceSystem(v: ActionVariant)
    requires OfSystem(v)
    ensures ' ' !in ActionName(v)
  {
  }

  lemma NoXSystem(v: ActionVariant)
    requires OfSystem(v)
    ensures 'x' !in ActionName(v)
  {
  }

  lemma NoSpaceSecrets(v: ActionVariant)
    requires OfSecrets(v)
    ensures ' ' !in ActionName(v)
  {
  }

  lemma NoXSecrets(v: ActionVariant)
    requires OfSecrets(v)
    ensures 'x' !in ActionName(v)
  {
  }

  /** No name holds a space, and only two hold an x. */
  lemma PlainName(v: ActionVariant)
    ensures ' ' !in ActionName(v)
    ensures !v.ContextGet? && !v.WindowMaximize? ==> 'x' !in ActionName(v)
  {
    hide ActionName;
    if OfDesktop(v) {
      NoSpaceDesktop(v);
      if !v.WindowMaximize? { NoXDesktop(v); }
    } else if OfFiles(v) {
      NoSpaceFiles(v);
      NoXFiles(v);
    } else if OfMachine(v) {
      NoSpaceMachine(v);
      if !v.ContextGet? { NoXMachine(v); }
    } else if OfDevices(v) {
      NoSpaceDevices(v);
      NoXDevices(v);
    } else if OfSystem(v) {
      NoSpaceSystem(v);
      NoXSystem(v);
    } else {
      NoSpaceSecrets(v);
      NoXSecrets(v);
    }
  }

  /** No name holds the word the policy looks for. */
  lemma NoExecInName(v: ActionVariant)
    ensures !Contains(ActionName(v), "exec")
  {
    if v.ContextGet? || v.WindowMaximize? {
      NoExecInThose();
    } else {
      PlainName(v);
      LacksChar(ActionName(v), "exec", 1);
    }
  }

  lemma NoExecInThose()
    ensures !Contains("context.get", "exec") && !Contains("window.maximize", "exec")
  {
    forall i: nat ensures !OccursAt("context.get", "exec", i) {
      if OccursAt("context.get", "exec", i) {
        OccursChar("context.get", "exec", i, 1);
        OccursChar("context.get", "exec", i, 2);
        assert false;
      }
    }
    forall i: nat ensures !OccursAt("window.maximize", "exec", i) {
      if OccursAt("window.maximize", "exec", i) {
        OccursChar("window.maximize", "exec", i, 1);
        OccursChar("window.maximize", "exec", i, 2);
        assert false;
      }
    }
  }

  /** The policy stage can refuse nothing: no variant is named like a shell. */
  lemma PolicyRefusesNothing(v: ActionVariant)
    ensures !LooksLikeShell(ActionName(v))
  {
    hide ActionName;
    PlainName(v);
    NoExecInName(v);
    LacksChar(ActionName(v), "sh ", 2);
    LacksChar(ActionName(v), "bash ", 4);
  }

  /** So an action is valid exactly when it has no structural defect and every capability it asks for was granted. */
  lemma ValidIffDefectFreeAndGranted(granted: seq<string>, a: Action)
    ensures IsValid(granted, a) <==> (forall e :: !HasDefect(a, e)) && forall c :: c in a.capabilities ==> c in granted
  {
    hide ActionName, LooksLikeShell, HasDefect, SchemaIssue;
    PolicyRefusesNothing(a.variant);
    SchemaIssueMeans(a);
  }
}
