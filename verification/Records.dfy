// The records an agent persists, and the field updates made when it is frozen.
module Records {
  import opened Outcomes

  newtype byte = b: int | 0 <= b < 256
  type Bytes = seq<byte>

  const LATEST_SCHEMA_VERSION: nat := 1
  const U64_LIMIT: nat := 0x1_0000_0000_0000_0000

  // AgentLifecycleStatus, stored as an integer.
  const STATUS_FROZEN: int := 1
  const STATUS_ACTIVE: int := 2

  const STALE_ACTIVE_THRESHOLD_SECS: nat := 300

  type I64 = i: int | -0x8000_0000_0000_0000 <= i < 0x8000_0000_0000_0000

  datatype Timestamp = Timestamp(seconds: I64, nanos: int)

  // `body` stands for the fields that neither freeze nor hydrate looks at.
  datatype AgentStateRecord = AgentStateRecord(
    status: int,
    lastFrozenAt: Option<Timestamp>,
    lastHydratedAt: Option<Timestamp>,
    currentTaskId: string,
    currentTaskTaint: Bytes,
    workingMemoryVersion: nat,
    schemaVersion: nat,
    body: Bytes)

  datatype WorkingMemoryRecord = WorkingMemoryRecord(
    version: nat,
    snapshotAt: Option<Timestamp>,
    schemaVersion: nat,
    body: Bytes)

  datatype CheckpointRecord = CheckpointRecord(
    tenantId: string,
    agentId: string,
    checkpointSeq: nat,
    trigger: int,
    preTaskId: string,
    stateSnapshot: AgentStateRecord,
    memorySnapshot: WorkingMemoryRecord,
    sha256Digest: Bytes,
    createdAt: Option<Timestamp>,
    schemaVersion: nat)

  // The serialiser and the hash, as given functions.
  datatype Codec = Codec(
    stateBytes: AgentStateRecord -> Bytes,
    memoryBytes: WorkingMemoryRecord -> Bytes,
    sha256: Bytes -> Bytes)

  // Step 1 of a freeze: the memory record that will be written.
  function FrozenMemory(memory: WorkingMemoryRecord, now: Timestamp): WorkingMemoryRecord {
    memory.(version := memory.version + 1,
            snapshotAt := Some(now),
            schemaVersion := LATEST_SCHEMA_VERSION)
  }

  // Steps 3 and 4 of a freeze: the state record that will be written.
  function FrozenState(state: AgentStateRecord, memoryVersion: nat, now: Timestamp): AgentStateRecord {
    state.(workingMemoryVersion := memoryVersion,
           status := STATUS_FROZEN,
           lastFrozenAt := Some(now),
           currentTaskId := "",
           currentTaskTaint := [],
           schemaVersion := LATEST_SCHEMA_VERSION)
  }

  // SHA-256 over the state bytes followed by the memory bytes.
  function Digest(codec: Codec, state: AgentStateRecord, memory: WorkingMemoryRecord): Bytes {
    codec.sha256(codec.stateBytes(state) + codec.memoryBytes(memory))
  }

  predicate Verifies(codec: Codec, checkpoint: CheckpointRecord) {
    checkpoint.sha256Digest == Digest(codec, checkpoint.stateSnapshot, checkpoint.memorySnapshot)
  }

  // `t.seconds as u64` in the source: a negative count wraps around.
  function AsU64(seconds: I64): nat {
    if seconds < 0 then seconds + U64_LIMIT else seconds
  }

  // Seconds since the record was last hydrated, by a saturating subtraction.
  function HydratedAge(state: AgentStateRecord, nowSecs: nat): nat {
    var last := match state.lastHydratedAt case None => 0 case Some(t) => AsU64(t.seconds);
    if nowSecs < last then 0 else nowSecs - last
  }

  // The stale-ACTIVE guard of hydration.
  predicate Busy(state: AgentStateRecord, nowSecs: nat) {
    state.status == STATUS_ACTIVE && HydratedAge(state, nowSecs) < STALE_ACTIVE_THRESHOLD_SECS
  }
}
