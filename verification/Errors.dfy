/** Error kinds of the agent runtime; the message text is not modelled. */
module Errors {
  datatype AgentError =
    | Session | Request | Intent | ActionError | Validation | CapabilityDenied | PolicyDenied
    | ApprovalRequired | Execution | Ipc | Tool | Planner | Llm | Observation | Cancellation
    | Timeout | NotFound | Internal
}
