/**
 Typed actions of the agent runtime: the variants an agent may ask for, the trusted
 table that assigns each a capability and a risk, and the retry budget it gets.
 */
module Actions {
  import opened Prelude

  datatype ActionRisk = Low | Medium | High | Critical

  datatype ActionVariant =
    | ApplicationLaunch(applicationId: string)
    | ApplicationClose(applicationId: string)
    | WindowList
    | WindowFocus(focusWindow: Option<nat>, focusApp: Option<string>)
    | WindowMinimize(windowId: nat)
    | WindowMaximize(windowId: nat)
    | WindowClose(closeWindow: Option<nat>, closeApp: Option<string>)
    | FileList(path: string)
    | FileRead(path: string)
    | FileCreate(path: string, initial: Option<string>)
    | FileWrite(path: string, content: string)
    | FileSearch(query: string, root: Option<string>)
    | FileRename(source: string, dest: string)
    | FileMove(source: string, dest: string)
    | FileDelete(path: string)
    | ProcessList
    | ProcessInspect(pid: Option<nat>, processName: Option<string>)
    | NetworkStatus
    | NetworkInterfaces
    | SystemStatus
    | SystemInfo
    | SystemResources
    | SystemUptime
    | ServiceRestart(serviceId: string)
    | StorageStatus
    | ContextGet
    | DisplayList
    | DisplaySetBrightness(displayId: string, level: nat)
    | DisplaySetResolution(displayId: string, width: nat, height: nat)
    | DeviceList
    | DeviceInspect(deviceId: string)
    | DeviceEnable(deviceId: string)
    | DeviceDisable(deviceId: string)
    | SystemReboot(delayMs: nat)
    | SystemShutdown(delayMs: nat)
    | SystemSuspend
    | CredentialSeal(name: string, plaintext: string)
    | CredentialUnseal(name: string)
    | PolicyReload

  type ActionId = nat

  /** `risk` is carried by the action: `NewAction` takes it from the table, `WithRisk` replaces it. */
  datatype Action = Action(
    id: ActionId,
    sessionName: string,
    variant: ActionVariant,
    capabilities: seq<string>,
    risk: ActionRisk,
    reason: string,
    timeoutMs: nat)

  function ActionName(v: ActionVariant): string {
    match v
    case ApplicationLaunch(_) => "application.launch"
    case ApplicationClose(_) => "application.close"
    case WindowList => "window.list"
    case WindowFocus(_, _) => "window.focus"
    case WindowMinimize(_) => "window.minimize"
    case WindowMaximize(_) => "window.maximize"
    case WindowClose(_, _) => "window.close"
    case FileList(_) => "file.list"
    case FileRead(_) => "file.read"
    case FileCreate(_, _) => "file.create"
    case FileWrite(_, _) => "file.write"
    case FileSearch(_, _) => "file.search"
    case FileRename(_, _) => "file.rename"
    case FileMove(_, _) => "file.move"
    case FileDelete(_) => "file.delete"
    case ProcessList => "process.list"
    case ProcessInspect(_, _) => "process.inspect"
    case NetworkStatus => "network.status"
    case NetworkInterfaces => "network.interfaces"
    case SystemStatus => "system.status"
    case SystemInfo => "system.info"
    case SystemResources => "system.resources"
    case SystemUptime => "system.uptime"
    case ServiceRestart(_) => "service.restart"
    case StorageStatus => "storage.status"
    case ContextGet => "context.get"
    case DisplayList => "display.list"
    case DisplaySetBrightness(_, _) => "display.set_brightness"
    case DisplaySetResolution(_, _, _) => "display.set_resolution"
    case DeviceList => "device.list"
    case DeviceInspect(_) => "device.inspect"
    case DeviceEnable(_) => "device.enable"
    case DeviceDisable(_) => "device.disable"
    case SystemReboot(_) => "system.reboot"
    case SystemShutdown(_) => "system.shutdown"
    case SystemSuspend => "system.suspend"
    case CredentialSeal(_, _) => "credential.seal"
    case CredentialUnseal(_) => "credential.unseal"
    case PolicyReload => "policy.reload"
  }

  function ClassifiedRisk(v: ActionVariant): ActionRisk {
    match v
    case ApplicationLaunch(_) | ApplicationClose(_) | WindowClose(_, _) => Medium
    case FileCreate(_, _) | FileWrite(_, _) | FileRename(_, _) | FileMove(_, _) => Medium
    case ServiceRestart(_) | DisplaySetResolution(_, _, _) => Medium
    case DeviceEnable(_) | DeviceDisable(_) => Medium
    case FileDelete(_) | SystemSuspend | CredentialSeal(_, _) | CredentialUnseal(_) | PolicyReload => High
    case SystemReboot(_) | SystemShutdown(_) => Critical
    case _ => Low
  }

  /** The one capability an action of this variant asks for is its own name. */
  function NewAction(id: ActionId, sessionName: string, v: ActionVariant, reason: string): Action {
    Action(id, sessionName, v, [ActionName(v)], ClassifiedRisk(v), reason, 30000)
  }

  function WithRisk(a: Action, level: ActionRisk): Action {
    a.(risk := level)
  }

  /** The action still carries the risk the table gives its variant. */
  predicate CarriesTableRisk(a: Action) {
    a.risk == ClassifiedRisk(a.variant)
  }

  predicate NeedsConfirmation(risk: ActionRisk) {
    risk == High || risk == Critical
  }
}
