/** Agent tasks: kinds, risks and the task record. */
module Tasks {
  import opened Prelude

  type TaskId = string

  datatype TaskRisk = Low | Medium | High | Critical

  datatype TaskKind =
    | RestartService | Notify | ProposeUpdate | ProposeInstall | ProposeCleanup | ProposeSecurityScan
    | DeviceControl | DisplayControl | PowerControl | SecurityControl | Custom

  function DefaultRisk(k: TaskKind): TaskRisk {
    match k
    case Notify | DisplayControl => Low
    case RestartService | ProposeCleanup | ProposeSecurityScan | DeviceControl => Medium
    case ProposeUpdate | ProposeInstall | SecurityControl | Custom => High
    case PowerControl => Critical
  }

  /** A field of the structured arguments; `Opaque` is any JSON value that is not one of the others. */
  datatype Value = Text(text: string) | Number(number: nat) | Flag(flag: bool) | Opaque

  /** The arguments object; a JSON value that is not an object has no fields. */
  type Arguments = map<string, Value>

  datatype AgentTask = AgentTask(
    id: TaskId,
    kind: TaskKind,
    title: string,
    description: string,
    dependsOn: seq<TaskId>,
    risk: TaskRisk,
    target: Option<string>,
    arguments: Option<Arguments>)

  function NewTask(id: TaskId, kind: TaskKind, title: string, description: string): Option<AgentTask> {
    if id == "" || title == "" || description == "" then None
    else Some(AgentTask(id, kind, title, description, [], DefaultRisk(kind), None, None))
  }
}
