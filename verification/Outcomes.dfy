// Option, Result and the error type shared by the state layer.
module Outcomes {

  datatype Option<+T> = None | Some(value: T)

  datatype Result<+T, +E> = Ok(value: T) | Err(error: E)

  // The variants of error.rs that the modelled code can return.
  datatype StateError =
    | ETagConflict(key: string)
    | AgentBusy(tenantId: string, agentId: string, lastHydratedSecs: nat)
    | TornWrite(agentId: string, stateVersion: nat, memoryVersion: nat)
    | NoCheckpointAvailable(tenantId: string, agentId: string)
    | UnsupportedSchemaVersion(found: nat, maxKnown: nat)
    | InvalidInput
    | DaprError
    | ProtoError
}
