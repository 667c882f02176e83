/** Freezing an agent: the ordered conditional writes and the best-effort checkpoint. */
module Freeze {
  import opened Outcomes
  import opened Records
  import opened Keys
  import opened StateStore

  datatype FreezeInput = FreezeInput(
    tenantId: string,
    agentId: string,
    state: AgentStateRecord,
    workingMemory: WorkingMemoryRecord,
    stateEtag: ETag,
    memoryEtag: ETag,
    checkpointTrigger: int)

  // The clock readings of one freeze, and whether each of its three writes reaches the store.
  datatype Surroundings = Surroundings(
    snapshotAt: Timestamp,
    frozenAt: Timestamp,
    nowSecs: nat,
    createdAt: Timestamp,
    memoryUp: bool,
    stateUp: bool,
    checkpointUp: bool)

  const MEMORY_TTL: TtlPolicy := Seconds(86400)

  // The checkpoint of a freeze: both records as written, under their digest.
  function NewCheckpoint(codec: Codec, input: FreezeInput, state: AgentStateRecord, memory: WorkingMemoryRecord,
                         at: Surroundings): CheckpointRecord
  {
    CheckpointRecord(input.tenantId, input.agentId, at.nowSecs, input.checkpointTrigger, "", state, memory,
                     Digest(codec, state, memory), Some(at.createdAt), LATEST_SCHEMA_VERSION)
  }

  function PutCheckpoint(codec: Codec, kv: Kv, input: FreezeInput, state: AgentStateRecord,
                         memory: WorkingMemoryRecord, at: Surroundings): (Kv, Result<ETag, StateError>)
  {
    Put(kv, CheckpointKey(input.tenantId, input.agentId, at.nowSecs),
        CheckpointValue(NewCheckpoint(codec, input, state, memory, at)), None, NoTtl, at.checkpointUp)
  }

  // The store after a freeze, and the checkpoint number it reports.
  function FreezeSpec(codec: Codec, kv: Kv, input: FreezeInput, at: Surroundings): (Kv, Result<nat, StateError>) {
    var memory := FrozenMemory(input.workingMemory, at.snapshotAt);
    var state := FrozenState(input.state, memory.version, at.frozenAt);
    var (kv1, r1) := Put(kv, WorkingMemoryKey(input.tenantId, input.agentId), MemoryValue(memory),
                         Some(input.memoryEtag), MEMORY_TTL, at.memoryUp);
    if r1.Err? then (kv1, Err(r1.error))
    else
      var (kv2, r2) := Put(kv1, AgentStateKey(input.tenantId, input.agentId), StateValue(state),
                           Some(input.stateEtag), NoTtl, at.stateUp);
      if r2.Err? then (kv2, Err(r2.error))
      else
        var (kv3, r3) := PutCheckpoint(codec, kv2, input, state, memory, at);
        (kv3, Ok(if r3.Ok? then at.nowSecs else 0))
  }

  class AgentFreezeManager {
    const store: DaprStateStore
    const codec: Codec
    const maxRetainedCheckpoints: nat := 5

    constructor (store: DaprStateStore, codec: Codec)
      ensures this.store == store && this.codec == codec
    {
      this.store, this.codec := store, codec;
    }

    method Freeze(input: FreezeInput, at: Surroundings) returns (r: Result<nat, StateError>)
      modifies store
      ensures (store.Contents(), r) == FreezeSpec(codec, old(store.Contents()), input, at)
    {
      var memory, state := input.workingMemory, input.state;
      var stateKey := AgentStateKey(input.tenantId, input.agentId);
      var memoryKey := WorkingMemoryKey(input.tenantId, input.agentId);

      // Step 1: a new memory version.
      var newMemoryVersion := memory.version + 1;
      memory := memory.(version := newMemoryVersion);
      memory := memory.(snapshotAt := Some(at.snapshotAt));
      memory := memory.(schemaVersion := LATEST_SCHEMA_VERSION);

      // Step 2: working memory first.
      var memoryWrite := store.Set(memoryKey, MemoryValue(memory), Some(input.memoryEtag), MEMORY_TTL, at.memoryUp);
      if memoryWrite.Err? {
        return Err(memoryWrite.error);
      }

      // Steps 3 and 4: the state record follows.
      state := state.(workingMemoryVersion := newMemoryVersion);
      state := state.(status := STATUS_FROZEN);
      state := state.(lastFrozenAt := Some(at.frozenAt));
      state := state.(currentTaskId := "", currentTaskTaint := []);
      state := state.(schemaVersion := LATEST_SCHEMA_VERSION);

      // Step 5: the state record.
      var stateWrite := store.Set(stateKey, StateValue(state), Some(input.stateEtag), NoTtl, at.stateUp);
      if stateWrite.Err? {
        return Err(stateWrite.error);
      }

      // Step 6: the checkpoint; its failure is not an error of the freeze.
      var checkpoint := WriteCheckpoint(input, state, memory, at);
      match checkpoint
      case Ok(seqno) => return Ok(seqno);
      case Err(_) => return Ok(0);
    }

    method WriteCheckpoint(input: FreezeInput, state: AgentStateRecord, memory: WorkingMemoryRecord, at: Surroundings)
      returns (r: Result<nat, StateError>)
      modifies store
      ensures var (kv, written) := PutCheckpoint(codec, old(store.Contents()), input, state, memory, at);
              store.Contents() == kv && r == (if written.Ok? then Ok(at.nowSecs) else Err(written.error))
      ensures r == if at.checkpointUp then Ok(at.nowSecs) else Err(DaprError)
    {
      var seqno := at.nowSecs;
      var digest := codec.sha256(codec.stateBytes(state) + codec.memoryBytes(memory));
      var checkpoint := CheckpointRecord(
        input.tenantId, input.agentId, seqno, input.checkpointTrigger, "",
        state, memory, digest, Some(at.createdAt), LATEST_SCHEMA_VERSION);
      var key := CheckpointKey(input.tenantId, input.agentId, seqno);
      var written := store.Set(key, CheckpointValue(checkpoint), None, NoTtl, at.checkpointUp);
      if written.Err? {
        return Err(written.error);
      }
      return Ok(seqno);
    }
  }
}
