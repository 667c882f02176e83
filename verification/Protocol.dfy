/** The freeze / hydrate protocol of one agent as a transition system.

    One store holds the agent's state record, its working-memory record and its checkpoints.
    Any number of hydrations and freezes run against it, each of their reads and writes being one
    step, so that every interleaving and every crash point is a sequence of actions.  `Step` is
    total: an action that is not enabled leaves the configuration alone.

    Every successful write takes a fresh ETag, so an ETag names one write; `owner` maps it to the
    freeze that made the write.  Freeze ids, `owner` and the fields called `at` and `basis` are
    bookkeeping of the model: no branch of a step depends on what they say.  */
module Protocol {
  import opened Outcomes
  import opened Records

  type ETag = nat
  type HydrateId = nat
  type FreezeId = nat

  datatype Cell<T> = Cell(rec: T, etag: ETag)
  type StateCell = Cell<AgentStateRecord>
  type MemoryCell = Cell<WorkingMemoryRecord>

  // `sound` says that the checkpoint's SHA-256 digest still verifies.
  datatype Snapshot = Snapshot(state: AgentStateRecord, memory: WorkingMemoryRecord, sound: bool)

  datatype AgentStore = AgentStore(
    state: Option<StateCell>,
    memory: Option<MemoryCell>,
    checkpoints: map<nat, Snapshot>)

  // What a freeze commits: its two records, under its id.
  datatype Commit = Commit(id: FreezeId, state: AgentStateRecord, memory: WorkingMemoryRecord)

  // How a hydration can fail, with what it had read by then.
  datatype Failure =
    | NoState
    | StillActive(age: nat)
    | NoValidCheckpoint(state: StateCell, found: Option<MemoryCell>)

  // A hydration.  `at` is the committed pair at the moment the state record was read.
  datatype Hydrate =
    | StateRead(state: StateCell, at: Option<Commit>)
    | Inconsistent(state: StateCell, at: Option<Commit>, found: Option<MemoryCell>)
    | Hydrated(state: StateCell, at: Option<Commit>, found: Option<MemoryCell>,
               memory: WorkingMemoryRecord, recovered: bool)
    | Rejected(failure: Failure)

  datatype Phase = Started | MemoryWritten | StateWritten | Finished | Conflicted | Crashed

  // A freeze.  `memoryTag` is None when hydration found no memory record to read a tag from.
  // `basis` is the `at` of the hydration it came from.
  datatype Freeze = Freeze(
    phase: Phase,
    stateTag: ETag,
    memoryTag: Option<ETag>,
    basis: Option<Commit>,
    stateOut: AgentStateRecord,
    memoryOut: WorkingMemoryRecord,
    wroteMemory: bool,
    wroteState: bool,
    wroteCheckpoint: bool)

  datatype Config = Config(
    store: AgentStore,
    next: ETag,
    clock: nat,
    hydrates: map<HydrateId, Hydrate>,
    freezes: map<FreezeId, Freeze>,
    owner: map<ETag, FreezeId>,
    lastCheckpoint: Option<FreezeId>)

  datatype Action =
    | ReadState(h: HydrateId, nowSecs: nat)
    | ReadMemory(h: HydrateId)
    | Recover(h: HydrateId, version: nat)
    | StartFreeze(f: FreezeId, h: HydrateId, state: AgentStateRecord, memory: WorkingMemoryRecord,
                  snapshotAt: Timestamp, frozenAt: Timestamp)
    | WriteMemory(f: FreezeId)
    | WriteState(f: FreezeId)
    | WriteCheckpoint(f: FreezeId, seqno: nat)
    | LoseCheckpoint(f: FreezeId)
    | Crash(f: FreezeId)
    | ExpireMemory
    | CorruptCheckpoint(seqno: nat)
    | OtherWrite

  /******* Checkpoints *******/

  ghost predicate IsNewestSound(checkpoints: map<nat, Snapshot>, seqno: nat) {
    && seqno in checkpoints && checkpoints[seqno].sound
    && forall n :: n in checkpoints && checkpoints[n].sound ==> n <= seqno
  }

  // The first checkpoint, newest first, whose digest verifies.
  ghost function NewestSound(checkpoints: map<nat, Snapshot>): Option<nat> {
    if exists n :: IsNewestSound(checkpoints, n) then
      var n :| IsNewestSound(checkpoints, n); Some(n)
    else None
  }

  /******* The committed pair *******/

  // The state record in the store together with the memory record written by the same freeze.
  function Committed(c: Config): Option<Commit> {
    if c.store.state.Some? && c.store.state.value.etag in c.owner
       && c.owner[c.store.state.value.etag] in c.freezes then
      var id := c.owner[c.store.state.value.etag];
      Some(Commit(id, c.store.state.value.rec, c.freezes[id].memoryOut))
    else None
  }

  /******* Steps *******/

  function StepReadState(c: Config, h: HydrateId, nowSecs: nat): Config {
    if h in c.hydrates then c
    else
      var outcome := match c.store.state
        case None => Rejected(NoState)
        case Some(cell) =>
          if Busy(cell.rec, nowSecs) then Rejected(StillActive(HydratedAge(cell.rec, nowSecs)))
          else StateRead(cell, Committed(c));
      c.(hydrates := c.hydrates[h := outcome])
  }

  function StepReadMemory(c: Config, h: HydrateId): Config {
    if h in c.hydrates && c.hydrates[h].StateRead? then
      var StateRead(state, at) := c.hydrates[h];
      var outcome :=
        if c.store.memory.Some? && c.store.memory.value.rec.version == state.rec.workingMemoryVersion then
          Hydrated(state, at, c.store.memory, c.store.memory.value.rec, false)
        else Inconsistent(state, at, c.store.memory);
      c.(hydrates := c.hydrates[h := outcome])
    else c
  }

  // `version` is the version that recovery puts on the memory record it restores.
  ghost function StepRecover(c: Config, h: HydrateId, version: nat): Config {
    if h in c.hydrates && c.hydrates[h].Inconsistent? then
      var Inconsistent(state, at, found) := c.hydrates[h];
      var outcome := match NewestSound(c.store.checkpoints)
        case None => Rejected(NoValidCheckpoint(state, found))
        case Some(n) =>
          Hydrated(state, at, found, c.store.checkpoints[n].memory.(version := version), true);
      c.(hydrates := c.hydrates[h := outcome])
    else c
  }

  function StepStartFreeze(c: Config, f: FreezeId, h: HydrateId, state: AgentStateRecord,
                           memory: WorkingMemoryRecord, snapshotAt: Timestamp, frozenAt: Timestamp): Config {
    if f !in c.freezes && h in c.hydrates && c.hydrates[h].Hydrated? then
      var from := c.hydrates[h];
      var memoryTag := match from.found case None => None case Some(cell) => Some(cell.etag);
      var memoryOut := FrozenMemory(memory, snapshotAt);
      var freeze := Freeze(Started, from.state.etag, memoryTag, from.at,
                           FrozenState(state, memoryOut.version, frozenAt), memoryOut,
                           false, false, false);
      c.(freezes := c.freezes[f := freeze])
    else c
  }

  predicate MemoryTagMatches(c: Config, freeze: Freeze) {
    c.store.memory.Some? && freeze.memoryTag == Some(c.store.memory.value.etag)
  }

  predicate StateTagMatches(c: Config, freeze: Freeze) {
    c.store.state.Some? && freeze.stateTag == c.store.state.value.etag
  }

  function SetFreeze(c: Config, f: FreezeId, freeze: Freeze): Config {
    c.(freezes := c.freezes[f := freeze])
  }

  function StepWriteMemory(c: Config, f: FreezeId): Config {
    if f in c.freezes && c.freezes[f].phase == Started then
      var freeze := c.freezes[f];
      if MemoryTagMatches(c, freeze) then
        SetFreeze(c, f, freeze.(phase := MemoryWritten, wroteMemory := true)).(
          store := c.store.(memory := Some(Cell(freeze.memoryOut, c.next))),
          next := c.next + 1,
          owner := c.owner[c.next := f])
      else SetFreeze(c, f, freeze.(phase := Conflicted))
    else c
  }

  function StepWriteState(c: Config, f: FreezeId): Config {
    if f in c.freezes && c.freezes[f].phase == MemoryWritten then
      var freeze := c.freezes[f];
      if StateTagMatches(c, freeze) then
        SetFreeze(c, f, freeze.(phase := StateWritten, wroteState := true)).(
          store := c.store.(state := Some(Cell(freeze.stateOut, c.next))),
          next := c.next + 1,
          owner := c.owner[c.next := f])
      else SetFreeze(c, f, freeze.(phase := Conflicted))
    else c
  }

  function StepWriteCheckpoint(c: Config, f: FreezeId, seqno: nat): Config {
    if f in c.freezes && c.freezes[f].phase == StateWritten then
      var freeze := c.freezes[f];
      SetFreeze(c, f, freeze.(phase := Finished, wroteCheckpoint := true)).(
        store := c.store.(checkpoints :=
          c.store.checkpoints[seqno := Snapshot(freeze.stateOut, freeze.memoryOut, true)]),
        next := c.next + 1,
        clock := seqno,
        lastCheckpoint := Some(f))
    else c
  }

  function StepPhase(c: Config, f: FreezeId, from: set<Phase>, to: Phase): Config {
    if f in c.freezes && c.freezes[f].phase in from then
      SetFreeze(c, f, c.freezes[f].(phase := to))
    else c
  }

  ghost function Step(c: Config, a: Action): Config {
    match a
    case ReadState(h, nowSecs) => StepReadState(c, h, nowSecs)
    case ReadMemory(h) => StepReadMemory(c, h)
    case Recover(h, version) => StepRecover(c, h, version)
    case StartFreeze(f, h, state, memory, snapshotAt, frozenAt) =>
      StepStartFreeze(c, f, h, state, memory, snapshotAt, frozenAt)
    case WriteMemory(f) => StepWriteMemory(c, f)
    case WriteState(f) => StepWriteState(c, f)
    case WriteCheckpoint(f, seqno) => StepWriteCheckpoint(c, f, seqno)
    // A failed checkpoint write is logged and the freeze still succeeds.
    case LoseCheckpoint(f) => StepPhase(c, f, {StateWritten}, Finished)
    case Crash(f) => StepPhase(c, f, {Started, MemoryWritten, StateWritten}, Crashed)
    case ExpireMemory => c.(store := c.store.(memory := None))
    case CorruptCheckpoint(seqno) =>
      if seqno in c.store.checkpoints then
        c.(store := c.store.(checkpoints :=
          c.store.checkpoints[seqno := c.store.checkpoints[seqno].(sound := false)]))
      else c
    // A write to some other key of the shared store uses up an ETag.
    case OtherWrite => c.(next := c.next + 1)
  }

  ghost function Run(c: Config, actions: seq<Action>): Config
    decreases |actions|
  {
    if actions == [] then c else Run(Step(c, actions[0]), actions[1..])
  }

  /******* Initial configurations *******/

  // An agent just created by freeze 0: both records present, with equal versions.
  ghost predicate Init(c: Config) {
    && c.freezes.Keys == {0}
    && (var creation := c.freezes[0];
        && creation.phase == Finished && creation.wroteMemory && creation.wroteState
        && creation.stateOut.workingMemoryVersion == creation.memoryOut.version
        && c.store.state == Some(Cell(creation.stateOut, 0))
        && c.store.memory == Some(Cell(creation.memoryOut, 1))
        && c.lastCheckpoint == (if creation.wroteCheckpoint then Some(0) else None)
        && c.store.checkpoints ==
           (if creation.wroteCheckpoint
            then map[c.clock := Snapshot(creation.stateOut, creation.memoryOut, true)]
            else map[]))
    && c.owner == map[0 := 0, 1 := 0]
    && c.next >= 2
    && c.hydrates == map[]
  }

  /******* The version hypothesis *******/

  // A freeze may only start with a memory version at least that of the record whose tag it holds.
  predicate RespectsVersion(c: Config, a: Action) {
    a.StartFreeze? && a.h in c.hydrates && c.hydrates[a.h].Hydrated? && c.hydrates[a.h].found.Some? ==>
      a.memory.version >= c.hydrates[a.h].found.value.rec.version
  }

  ghost predicate VersionsRespected(c: Config, actions: seq<Action>)
    decreases |actions|
  {
    actions != [] ==>
      RespectsVersion(c, actions[0]) && VersionsRespected(Step(c, actions[0]), actions[1..])
  }
}
