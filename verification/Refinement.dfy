/** From the shared key-value store to one agent's protocol: the sequential freeze and hydrate are
    runs of the transition system, and they leave every other agent alone.  */
module Refinement {
  import opened Outcomes
  import opened Records
  import opened Text
  import opened Keys
  import opened StateStore
  import opened Freeze
  import opened Hydrate
  import P = Protocol
  import opened ProtocolRecovery

  /******* One agent's part of the store *******/

  function Sound(codec: Codec, checkpoint: CheckpointRecord): P.Snapshot {
    P.Snapshot(checkpoint.stateSnapshot, checkpoint.memorySnapshot, Verifies(codec, checkpoint))
  }

  ghost predicate HoldsCheckpoint(entries: Entries, t: string, a: string, n: nat) {
    n < U64_LIMIT && CheckpointKey(t, a, n) in entries && entries[CheckpointKey(t, a, n)].value.CheckpointValue?
  }

  function StateOf(entries: Entries, t: string, a: string): Option<P.StateCell> {
    var k := AgentStateKey(t, a);
    if k in entries && entries[k].value.StateValue? then Some(P.Cell(entries[k].value.state, entries[k].etag)) else None
  }

  function MemoryOf(entries: Entries, t: string, a: string): Option<P.MemoryCell> {
    var k := WorkingMemoryKey(t, a);
    if k in entries && entries[k].value.MemoryValue? then Some(P.Cell(entries[k].value.memory, entries[k].etag)) else None
  }

  ghost function CheckpointsOf(codec: Codec, entries: Entries, t: string, a: string): map<nat, P.Snapshot> {
    map n: nat | n < U64_LIMIT && HoldsCheckpoint(entries, t, a, n) ::
      Sound(codec, entries[CheckpointKey(t, a, n)].value.checkpoint)
  }

  ghost function View(codec: Codec, entries: Entries, t: string, a: string): P.AgentStore {
    P.AgentStore(StateOf(entries, t, a), MemoryOf(entries, t, a), CheckpointsOf(codec, entries, t, a))
  }

  // The keys of an agent hold records of their own kind, and what is listed under its checkpoint
  // prefix are checkpoints under 64-bit numbers.
  ghost predicate Typed(entries: Entries, t: string, a: string) {
    && (AgentStateKey(t, a) in entries ==> entries[AgentStateKey(t, a)].value.StateValue?)
    && (WorkingMemoryKey(t, a) in entries ==> entries[WorkingMemoryKey(t, a)].value.MemoryValue?)
    && (forall k :: k in entries && CheckpointPrefix(t, a) <= k ==>
          exists n: nat :: HoldsCheckpoint(entries, t, a, n) && k == CheckpointKey(t, a, n))
  }

  // The five kinds of key, and the keys of agents with other owner texts, never coincide.
  lemma KeysApart(t: string, a: string, t': string, a': string, kind: Kind, kind': Kind)
    requires ValidId(t) && ValidId(a) && ValidId(t') && ValidId(a')
    requires kind.Checkpoint? ==> kind.seqno < U64_LIMIT
    requires kind'.Checkpoint? ==> kind'.seqno < U64_LIMIT
    ensures Print(Key(t, a, kind)) == Print(Key(t', a', kind')) <==>
            kind == kind' && OwnerText(t, a) == OwnerText(t', a')
  {
    SameKey(Key(t, a, kind), Key(t', a', kind'));
  }

  lemma ViewOfKey(codec: Codec, entries: Entries, key: string, entry: Entry, t: string, a: string)
    ensures var after := entries[key := entry];
            && (key != AgentStateKey(t, a) ==> StateOf(after, t, a) == StateOf(entries, t, a))
            && (key != WorkingMemoryKey(t, a) ==> MemoryOf(after, t, a) == MemoryOf(entries, t, a))
            && (key == AgentStateKey(t, a) && entry.value.StateValue? ==>
                  StateOf(after, t, a) == Some(P.Cell(entry.value.state, entry.etag)))
            && (key == WorkingMemoryKey(t, a) && entry.value.MemoryValue? ==>
                  MemoryOf(after, t, a) == Some(P.Cell(entry.value.memory, entry.etag)))
  {
  }

  lemma CheckpointsOfKey(codec: Codec, entries: Entries, key: string, entry: Entry, t: string, a: string)
    requires forall n: nat | n < U64_LIMIT :: key != CheckpointKey(t, a, n)
    ensures CheckpointsOf(codec, entries[key := entry], t, a) == CheckpointsOf(codec, entries, t, a)
  {
  }

  lemma CheckpointsOfWrite(codec: Codec, entries: Entries, seqno: nat, entry: Entry, t: string, a: string)
    requires seqno < U64_LIMIT && entry.value.CheckpointValue?
    requires forall n: nat | n < U64_LIMIT :: CheckpointKey(t, a, seqno) == CheckpointKey(t, a, n) ==> n == seqno
    ensures CheckpointsOf(codec, entries[CheckpointKey(t, a, seqno) := entry], t, a) ==
            CheckpointsOf(codec, entries, t, a)[seqno := Sound(codec, entry.value.checkpoint)]
  {
  }

  /******* Writing one key *******/

  // A write of one agent's key shows in the view of exactly the agents with the same owner text.
  lemma StateWrite(codec: Codec, entries: Entries, t: string, a: string, entry: Entry, t': string, a': string)
    requires ValidId(t) && ValidId(a) && ValidId(t') && ValidId(a') && entry.value.StateValue?
    ensures View(codec, entries[AgentStateKey(t, a) := entry], t', a') ==
            if OwnerText(t, a) == OwnerText(t', a')
            then View(codec, entries, t', a').(state := Some(P.Cell(entry.value.state, entry.etag)))
            else View(codec, entries, t', a')
  {
    var key := AgentStateKey(t, a);
    BuildersPrint(t, a, 0, "");
    OwnKeys(t, a, t', a', State);
    ViewOfKey(codec, entries, key, entry, t', a');
    CheckpointsOfKey(codec, entries, key, entry, t', a');
  }

  lemma MemoryWrite(codec: Codec, entries: Entries, t: string, a: string, entry: Entry, t': string, a': string)
    requires ValidId(t) && ValidId(a) && ValidId(t') && ValidId(a') && entry.value.MemoryValue?
    ensures View(codec, entries[WorkingMemoryKey(t, a) := entry], t', a') ==
            if OwnerText(t, a) == OwnerText(t', a')
            then View(codec, entries, t', a').(memory := Some(P.Cell(entry.value.memory, entry.etag)))
            else View(codec, entries, t', a')
  {
    var key := WorkingMemoryKey(t, a);
    BuildersPrint(t, a, 0, "");
    OwnKeys(t, a, t', a', WorkingMemory);
    ViewOfKey(codec, entries, key, entry, t', a');
    CheckpointsOfKey(codec, entries, key, entry, t', a');
  }

  lemma CheckpointWrite(codec: Codec, entries: Entries, t: string, a: string, seqno: nat, entry: Entry,
                        t': string, a': string)
    requires ValidId(t) && ValidId(a) && ValidId(t') && ValidId(a') && entry.value.CheckpointValue?
    requires seqno < U64_LIMIT
    ensures View(codec, entries[CheckpointKey(t, a, seqno) := entry], t', a') ==
            if OwnerText(t, a) == OwnerText(t', a')
            then View(codec, entries, t', a').(checkpoints :=
                   CheckpointsOf(codec, entries, t', a')[seqno := Sound(codec, entry.value.checkpoint)])
            else View(codec, entries, t', a')
  {
    var key := CheckpointKey(t, a, seqno);
    BuildersPrint(t, a, seqno, "");
    BuildersPrint(t', a', seqno, "");
    OwnKeys(t, a, t', a', Checkpoint(seqno));
    ViewOfKey(codec, entries, key, entry, t', a');
    if OwnerText(t, a) == OwnerText(t', a') {
      assert key == CheckpointKey(t', a', seqno);
      CheckpointsOfWrite(codec, entries, seqno, entry, t', a');
    } else {
      CheckpointsOfKey(codec, entries, key, entry, t', a');
    }
  }

  // Which of an agent's keys a written key is.
  lemma OwnKeys(t: string, a: string, t': string, a': string, kind: Kind)
    requires ValidId(t) && ValidId(a) && ValidId(t') && ValidId(a')
    requires kind.Checkpoint? ==> kind.seqno < U64_LIMIT
    ensures var key, same := Print(Key(t, a, kind)), OwnerText(t, a) == OwnerText(t', a');
            && (key == AgentStateKey(t', a') <==> same && kind == State)
            && (key == WorkingMemoryKey(t', a') <==> same && kind == WorkingMemory)
            && forall n: nat | n < U64_LIMIT :: key == CheckpointKey(t', a', n) <==> same && kind == Checkpoint(n)
  {
    KeysApart(t, a, t', a', kind, State);
    KeysApart(t, a, t', a', kind, WorkingMemory);
    BuildersPrint(t', a', 0, "");
    forall n: nat | n < U64_LIMIT
      ensures Print(Key(t, a, kind)) == CheckpointKey(t', a', n) <==>
              OwnerText(t, a) == OwnerText(t', a') && kind == Checkpoint(n)
    {
      KeysApart(t, a, t', a', kind, Checkpoint(n));
      BuildersPrint(t', a', n, "");
    }
  }

  /******* Freeze *******/

  ghost predicate Stands(codec: Codec, kv: Kv, t: string, a: string, c: P.Config) {
    c.store == View(codec, kv.entries, t, a) && c.next == kv.next
  }

  predicate ValidInput(input: FreezeInput) {
    ValidateId(input.tenantId).Ok? && ValidateId(input.agentId).Ok?
  }

  // Each write of a freeze as one action: lost to an unreachable store, or tried.
  function MemoryAction(f: P.FreezeId, at: Surroundings): P.Action {
    if at.memoryUp then P.WriteMemory(f) else P.Crash(f)
  }

  function StateAction(f: P.FreezeId, at: Surroundings): P.Action {
    if at.stateUp then P.WriteState(f) else P.Crash(f)
  }

  function CheckpointAction(f: P.FreezeId, at: Surroundings): P.Action {
    if at.checkpointUp then P.WriteCheckpoint(f, at.nowSecs) else P.LoseCheckpoint(f)
  }

  function StartAction(f: P.FreezeId, h: P.HydrateId, input: FreezeInput, at: Surroundings): P.Action {
    P.StartFreeze(f, h, input.state, input.workingMemory, at.snapshotAt, at.frozenAt)
  }

  function FreezeActions(f: P.FreezeId, h: P.HydrateId, input: FreezeInput, at: Surroundings): seq<P.Action> {
    [StartAction(f, h, input, at), MemoryAction(f, at), StateAction(f, at), CheckpointAction(f, at)]
  }

  function WrittenMemory(input: FreezeInput, at: Surroundings): WorkingMemoryRecord {
    FrozenMemory(input.workingMemory, at.snapshotAt)
  }

  function WrittenState(input: FreezeInput, at: Surroundings): AgentStateRecord {
    FrozenState(input.state, WrittenMemory(input, at).version, at.frozenAt)
  }

  function MemoryPut(kv: Kv, input: FreezeInput, at: Surroundings): (Kv, Result<ETag, StateError>) {
    Put(kv, WorkingMemoryKey(input.tenantId, input.agentId), MemoryValue(WrittenMemory(input, at)),
        Some(input.memoryEtag), MEMORY_TTL, at.memoryUp)
  }

  function StatePut(kv: Kv, input: FreezeInput, at: Surroundings): (Kv, Result<ETag, StateError>) {
    Put(kv, AgentStateKey(input.tenantId, input.agentId), StateValue(WrittenState(input, at)),
        Some(input.stateEtag), NoTtl, at.stateUp)
  }

  // Freeze f of the transition system is this call, in the given phase.
  ghost predicate Represents(freeze: P.Freeze, input: FreezeInput, at: Surroundings, phase: P.Phase) {
    && freeze.phase == phase && freeze.stateTag == input.stateEtag && freeze.memoryTag == Some(input.memoryEtag)
    && freeze.stateOut == WrittenState(input, at) && freeze.memoryOut == WrittenMemory(input, at)
    && !freeze.wroteCheckpoint
    && (freeze.wroteState <==> phase == P.StateWritten)
  }

  // The phase in which a failed write leaves the freeze; writes fail in no other way.
  function FailedPhase(error: StateError): Option<P.Phase> {
    match error
    case DaprError => Some(P.Crashed)
    case ETagConflict(_) => Some(P.Conflicted)
    case _ => None
  }

  // Where a write that was tried leaves the freeze.
  function PhaseAfter(r: Result<ETag, StateError>, success: P.Phase): Option<P.Phase> {
    match r
    case Ok(_) => Some(success)
    case Err(error) => FailedPhase(error)
  }

  lemma MemoryStep(codec: Codec, kv: Kv, c: P.Config, f: P.FreezeId, input: FreezeInput, at: Surroundings)
    requires ValidInput(input) && Stands(codec, kv, input.tenantId, input.agentId, c)
    requires Typed(kv.entries, input.tenantId, input.agentId)
    requires f in c.freezes && Represents(c.freezes[f], input, at, P.Started)
    ensures var (kv', r) := MemoryPut(kv, input, at);
            var d := P.Step(c, MemoryAction(f, at));
            && Stands(codec, kv', input.tenantId, input.agentId, d) && f in d.freezes
            && PhaseAfter(r, P.MemoryWritten).Some?
            && Represents(d.freezes[f], input, at, PhaseAfter(r, P.MemoryWritten).value)
  {
    var t, a := input.tenantId, input.agentId;
    var key := WorkingMemoryKey(t, a);
    assert Passes(kv, key, Some(input.memoryEtag)) <==> P.MemoryTagMatches(c, c.freezes[f]);
    MemoryWrite(codec, kv.entries, t, a, Entry(MemoryValue(WrittenMemory(input, at)), kv.next, MEMORY_TTL), t, a);
  }

  lemma StateStep(codec: Codec, kv: Kv, c: P.Config, f: P.FreezeId, input: FreezeInput, at: Surroundings)
    requires ValidInput(input) && Stands(codec, kv, input.tenantId, input.agentId, c)
    requires AgentStateKey(input.tenantId, input.agentId) in kv.entries ==>
               kv.entries[AgentStateKey(input.tenantId, input.agentId)].value.StateValue?
    requires f in c.freezes && Represents(c.freezes[f], input, at, P.MemoryWritten)
    ensures var (kv', r) := StatePut(kv, input, at);
            var d := P.Step(c, StateAction(f, at));
            && Stands(codec, kv', input.tenantId, input.agentId, d) && f in d.freezes
            && PhaseAfter(r, P.StateWritten).Some?
            && Represents(d.freezes[f], input, at, PhaseAfter(r, P.StateWritten).value)
  {
    var t, a := input.tenantId, input.agentId;
    var key := AgentStateKey(t, a);
    assert Passes(kv, key, Some(input.stateEtag)) <==> P.StateTagMatches(c, c.freezes[f]);
    StateWrite(codec, kv.entries, t, a, Entry(StateValue(WrittenState(input, at)), kv.next, NoTtl), t, a);
  }

  lemma PutCheckpointUp(codec: Codec, kv: Kv, input: FreezeInput, state: AgentStateRecord,
                        memory: WorkingMemoryRecord, at: Surroundings)
    requires at.checkpointUp
    ensures PutCheckpoint(codec, kv, input, state, memory, at).0 ==
            Written(kv, CheckpointKey(input.tenantId, input.agentId, at.nowSecs),
                    CheckpointValue(NewCheckpoint(codec, input, state, memory, at)), NoTtl)
  {
  }

  lemma CheckpointPhase(codec: Codec, kv: Kv, c: P.Config, f: P.FreezeId, input: FreezeInput, at: Surroundings)
    requires f in c.freezes && Represents(c.freezes[f], input, at, P.StateWritten)
    ensures var r := PutCheckpoint(codec, kv, input, WrittenState(input, at), WrittenMemory(input, at), at).1;
            var d := P.Step(c, CheckpointAction(f, at));
            && f in d.freezes && d.freezes[f].phase == P.Finished && d.freezes[f].wroteState
            && (d.freezes[f].wroteCheckpoint <==> r.Ok?)
  {
  }

  lemma CheckpointLands(codec: Codec, kv: Kv, c: P.Config, f: P.FreezeId, input: FreezeInput, at: Surroundings,
                        state: AgentStateRecord, memory: WorkingMemoryRecord)
    requires ValidInput(input) && Stands(codec, kv, input.tenantId, input.agentId, c) && at.nowSecs < U64_LIMIT
    requires f in c.freezes && c.freezes[f].phase == P.StateWritten
    requires c.freezes[f].stateOut == state && c.freezes[f].memoryOut == memory
    ensures var checkpoint := NewCheckpoint(codec, input, state, memory, at);
            var kv' := Written(kv, CheckpointKey(input.tenantId, input.agentId, at.nowSecs),
                               CheckpointValue(checkpoint), NoTtl);
            Stands(codec, kv', input.tenantId, input.agentId, P.StepWriteCheckpoint(c, f, at.nowSecs))
  {
    var t, a := input.tenantId, input.agentId;
    var checkpoint := NewCheckpoint(codec, input, state, memory, at);
    CheckpointWrite(codec, kv.entries, t, a, at.nowSecs, Entry(CheckpointValue(checkpoint), kv.next, NoTtl), t, a);
    assert P.StepWriteCheckpoint(c, f, at.nowSecs).store ==
           c.store.(checkpoints := c.store.checkpoints[at.nowSecs := Sound(codec, checkpoint)]);
  }

  lemma CheckpointActionIs(c: P.Config, f: P.FreezeId, at: Surroundings)
    ensures P.Step(c, CheckpointAction(f, at)) ==
            if at.checkpointUp then P.StepWriteCheckpoint(c, f, at.nowSecs)
            else P.StepPhase(c, f, {P.StateWritten}, P.Finished)
  {
  }

  // A freeze that has ended takes no further step.
  lemma EndedStays(c: P.Config, f: P.FreezeId, at: Surroundings)
    requires f in c.freezes && (c.freezes[f].phase == P.Crashed || c.freezes[f].phase == P.Conflicted)
    ensures P.Step(c, StateAction(f, at)) == c && P.Step(c, CheckpointAction(f, at)) == c
  {
  }

  lemma FourSteps(c: P.Config, a1: P.Action, a2: P.Action, a3: P.Action, a4: P.Action)
    ensures P.Run(c, [a1, a2, a3, a4]) == P.Step(P.Step(P.Step(P.Step(c, a1), a2), a3), a4)
  {
    RunCons(c, a1, [a2, a3, a4]);
    RunCons(P.Step(c, a1), a2, [a3, a4]);
    RunCons(P.Step(P.Step(c, a1), a2), a3, [a4]);
    RunCons(P.Step(P.Step(P.Step(c, a1), a2), a3), a4, []);
    assert [a1, a2, a3, a4] == [a1] + [a2, a3, a4] && [a2, a3, a4] == [a2] + [a3, a4] && [a3, a4] == [a3] + [a4];
    assert [a4] == [a4] + [];
  }

  // A freeze with the tags of hydration h, run to its end with nothing in between, is four actions
  // of the transition system: same store, same outcome.
  lemma FreezeRefinesProtocol(codec: Codec, kv: Kv, c: P.Config, f: P.FreezeId, h: P.HydrateId,
                              input: FreezeInput, at: Surroundings)
    requires ValidInput(input) && at.nowSecs < U64_LIMIT
    requires Stands(codec, kv, input.tenantId, input.agentId, c) && Typed(kv.entries, input.tenantId, input.agentId)
    requires f !in c.freezes && h in c.hydrates && c.hydrates[h].Hydrated?
    requires c.hydrates[h].state.etag == input.stateEtag
    requires c.hydrates[h].found.Some? && c.hydrates[h].found.value.etag == input.memoryEtag
    ensures var (kv', r) := FreezeSpec(codec, kv, input, at);
            var d := P.Run(c, FreezeActions(f, h, input, at));
            && Stands(codec, kv', input.tenantId, input.agentId, d) && f in d.freezes
            && (r.Ok? <==> d.freezes[f].wroteState)
            && (r.Ok? ==> r.value == if d.freezes[f].wroteCheckpoint then at.nowSecs else 0)
            && (r.Err? ==> Some(d.freezes[f].phase) == FailedPhase(r.error))
  {
    FourSteps(c, StartAction(f, h, input, at), MemoryAction(f, at), StateAction(f, at), CheckpointAction(f, at));
    var c1 := P.Step(c, StartAction(f, h, input, at));
    var (kv2, r2) := MemoryPut(kv, input, at);
    MemoryStep(codec, kv, c1, f, input, at);
    var c2 := P.Step(c1, MemoryAction(f, at));
    if r2.Err? {
      EndedStays(c2, f, at);
    } else {
      var (kv3, r3) := StatePut(kv2, input, at);
      TypedAfterMemory(kv, input, at);
      StateStep(codec, kv2, c2, f, input, at);
      var c3 := P.Step(c2, StateAction(f, at));
      if r3.Err? {
        EndedStays(c3, f, at);
      } else {
        CheckpointActionIs(c3, f, at);
        if at.checkpointUp {
          var state, memory := WrittenState(input, at), WrittenMemory(input, at);
          CheckpointLands(codec, kv3, c3, f, input, at, state, memory);
          PutCheckpointUp(codec, kv3, input, state, memory, at);
        }
        CheckpointPhase(codec, kv3, c3, f, input, at);
      }
    }
  }

  lemma TypedAfterMemory(kv: Kv, input: FreezeInput, at: Surroundings)
    requires ValidInput(input) && Typed(kv.entries, input.tenantId, input.agentId)
    ensures var (kv2, _) := MemoryPut(kv, input, at);
            AgentStateKey(input.tenantId, input.agentId) in kv2.entries ==>
              kv2.entries[AgentStateKey(input.tenantId, input.agentId)].value.StateValue?
  {
  }

  // A freeze of one agent leaves the records and checkpoints of every other agent alone.
  lemma FreezeLeavesOthers(codec: Codec, kv: Kv, input: FreezeInput, at: Surroundings, t': string, a': string)
    requires ValidInput(input) && ValidId(t') && ValidId(a') && at.nowSecs < U64_LIMIT
    requires OwnerText(input.tenantId, input.agentId) != OwnerText(t', a')
    ensures View(codec, FreezeSpec(codec, kv, input, at).0.entries, t', a') == View(codec, kv.entries, t', a')
  {
    var t, a := input.tenantId, input.agentId;
    var kv2 := MemoryPut(kv, input, at).0;
    PutLeavesOthers(codec, kv, t, a, WorkingMemory, MemoryValue(WrittenMemory(input, at)), Some(input.memoryEtag),
                    MEMORY_TTL, at.memoryUp, t', a');
    var kv3 := StatePut(kv2, input, at).0;
    PutLeavesOthers(codec, kv2, t, a, State, StateValue(WrittenState(input, at)), Some(input.stateEtag),
                    NoTtl, at.stateUp, t', a');
    var checkpoint := NewCheckpoint(codec, input, WrittenState(input, at), WrittenMemory(input, at), at);
    PutLeavesOthers(codec, kv3, t, a, Checkpoint(at.nowSecs), CheckpointValue(checkpoint), None,
                    NoTtl, at.checkpointUp, t', a');
    BuildersPrint(t, a, at.nowSecs, "");
  }

  lemma PutLeavesOthers(codec: Codec, kv: Kv, t: string, a: string, kind: Kind, value: Value, etag: Option<ETag>,
                        ttl: TtlPolicy, up: bool, t': string, a': string)
    requires ValidId(t) && ValidId(a) && ValidId(t') && ValidId(a')
    requires kind.Checkpoint? ==> kind.seqno < U64_LIMIT
    requires OwnerText(t, a) != OwnerText(t', a')
    ensures View(codec, Put(kv, Print(Key(t, a, kind)), value, etag, ttl, up).0.entries, t', a') ==
            View(codec, kv.entries, t', a')
  {
    var key := Print(Key(t, a, kind));
    OwnKeys(t, a, t', a', kind);
    ViewOfKey(codec, kv.entries, key, Entry(value, kv.next, ttl), t', a');
    CheckpointsOfKey(codec, kv.entries, key, Entry(value, kv.next, ttl), t', a');
  }

  /******* The surroundings *******/

  // The store dropping the memory record is the expiry step.
  lemma ExpiryIsAStep(codec: Codec, kv: Kv, t: string, a: string, c: P.Config)
    requires ValidId(t) && ValidId(a) && Stands(codec, kv, t, a, c)
    ensures Stands(codec, kv.(entries := kv.entries - {WorkingMemoryKey(t, a)}), t, a, P.Step(c, P.ExpireMemory))
  {
    var key := WorkingMemoryKey(t, a);
    var after := kv.entries - {key};
    BuildersPrint(t, a, 0, "");
    OwnKeys(t, a, t, a, WorkingMemory);
    assert forall n: nat :: HoldsCheckpoint(after, t, a, n) == HoldsCheckpoint(kv.entries, t, a, n);
  }

  // A checkpoint whose stored digest is no longer that of its snapshots is the corruption step.
  lemma SpoilingIsAStep(codec: Codec, kv: Kv, t: string, a: string, n: nat, digest: Bytes, c: P.Config)
    requires ValidId(t) && ValidId(a) && Stands(codec, kv, t, a, c) && HoldsCheckpoint(kv.entries, t, a, n)
    requires var checkpoint := kv.entries[CheckpointKey(t, a, n)].value.checkpoint;
             digest != codec.sha256(codec.stateBytes(checkpoint.stateSnapshot) +
                                    codec.memoryBytes(checkpoint.memorySnapshot))
    ensures var entry := kv.entries[CheckpointKey(t, a, n)];
            var spoiled := entry.(value := CheckpointValue(entry.value.checkpoint.(sha256Digest := digest)));
            Stands(codec, kv.(entries := kv.entries[CheckpointKey(t, a, n) := spoiled]), t, a,
                   P.Step(c, P.CorruptCheckpoint(n)))
  {
    var entry := kv.entries[CheckpointKey(t, a, n)];
    var spoiled := entry.(value := CheckpointValue(entry.value.checkpoint.(sha256Digest := digest)));
    CheckpointWrite(codec, kv.entries, t, a, n, spoiled, t, a);
  }

  // A write of another agent's key only uses up an ETag, or nothing if it is refused or lost.
  lemma OtherWriteIsAStep(codec: Codec, kv: Kv, t: string, a: string, kind: Kind, value: Value, etag: Option<ETag>,
                          ttl: TtlPolicy, up: bool, t': string, a': string, c: P.Config)
    requires ValidId(t) && ValidId(a) && ValidId(t') && ValidId(a')
    requires kind.Checkpoint? ==> kind.seqno < U64_LIMIT
    requires OwnerText(t, a) != OwnerText(t', a') && Stands(codec, kv, t', a', c)
    ensures var (kv', r) := Put(kv, Print(Key(t, a, kind)), value, etag, ttl, up);
            Stands(codec, kv', t', a', if r.Ok? then P.Step(c, P.OtherWrite) else c)
  {
    PutLeavesOthers(codec, kv, t, a, kind, value, etag, ttl, up, t', a');
    var (kv', r) := Put(kv, Print(Key(t, a, kind)), value, etag, ttl, up);
    StandsStill(codec, kv, kv', t', a', c);
  }

  lemma StandsStill(codec: Codec, kv: Kv, kv': Kv, t: string, a: string, c: P.Config)
    requires Stands(codec, kv, t, a, c) && View(codec, kv'.entries, t, a) == View(codec, kv.entries, t, a)
    ensures kv'.next == kv.next ==> Stands(codec, kv', t, a, c)
    ensures kv'.next == kv.next + 1 ==> Stands(codec, kv', t, a, P.Step(c, P.OtherWrite))
  {
  }

  /******* Recovery and hydration *******/

  // The newest valid key is the key of the newest sound checkpoint: key order is number order.
  lemma NewestKeyIsNewestSeqno(codec: Codec, entries: Entries, t: string, a: string, n: nat)
    requires Typed(entries, t, a) && n < U64_LIMIT
    ensures IsNewestValid(codec, entries, CheckpointPrefix(t, a), CheckpointKey(t, a, n)) <==>
            P.IsNewestSound(CheckpointsOf(codec, entries, t, a), n)
  {
    var checkpoints := CheckpointsOf(codec, entries, t, a);
    var prefix := CheckpointPrefix(t, a);
    forall m: nat | m < U64_LIMIT
      ensures prefix <= CheckpointKey(t, a, m)
      ensures LexLess(CheckpointKey(t, a, m), CheckpointKey(t, a, n)) <==> m < n
    {
      CheckpointKeyOrder(t, a, m, n);
    }
    if P.IsNewestSound(checkpoints, n) {
      forall k | k in entries && prefix <= k && ValidCheckpoint(codec, entries[k]) && k != CheckpointKey(t, a, n)
        ensures LexLess(k, CheckpointKey(t, a, n))
      {
        var m: nat :| HoldsCheckpoint(entries, t, a, m) && k == CheckpointKey(t, a, m);
        assert m in checkpoints && checkpoints[m].sound;
      }
    }
    if IsNewestValid(codec, entries, prefix, CheckpointKey(t, a, n)) {
      forall m | m in checkpoints && checkpoints[m].sound
        ensures m <= n
      {
        assert ValidCheckpoint(codec, entries[CheckpointKey(t, a, m)]);
        CheckpointKeyOrder(t, a, n, m);
        LexTotal(CheckpointKey(t, a, n), CheckpointKey(t, a, m));
      }
    }
  }

  lemma RecoverRefines(codec: Codec, entries: Entries, t: string, a: string)
    requires Typed(entries, t, a)
    ensures var newest := P.NewestSound(CheckpointsOf(codec, entries, t, a));
            && (newest.Some? ==> newest.value in CheckpointsOf(codec, entries, t, a))
            && RecoverSpec(codec, entries, t, a) ==
               match newest
               case None => Err(NoCheckpointAvailable(t, a))
               case Some(n) => Ok(CheckpointsOf(codec, entries, t, a)[n].memory)
  {
    var checkpoints, prefix := CheckpointsOf(codec, entries, t, a), CheckpointPrefix(t, a);
    forall key | IsNewestValid(codec, entries, prefix, key)
      ensures exists n :: P.IsNewestSound(checkpoints, n)
    {
      var m: nat :| HoldsCheckpoint(entries, t, a, m) && key == CheckpointKey(t, a, m);
      NewestKeyIsNewestSeqno(codec, entries, t, a, m);
    }
    if n :| P.IsNewestSound(checkpoints, n) {
      NewestSoundIs(checkpoints, n);
      NewestKeyIsNewestSeqno(codec, entries, t, a, n);
      forall key | IsNewestValid(codec, entries, prefix, key)
        ensures key == CheckpointKey(t, a, n)
      {
        NewestValidIsUnique(codec, entries, prefix, key, CheckpointKey(t, a, n));
      }
    }
  }

  // What a hydration of the transition system amounts to, in the terms of the call.
  ghost predicate Agrees(r: Result<HydrationResult, StateError>, hydrate: P.Hydrate, t: string, a: string) {
    match hydrate
    case Hydrated(state, _, found, memory, recovered) =>
      r == Ok(HydrationResult(state.rec, memory, recovered, state.etag,
                              if found.Some? then Some(found.value.etag) else None))
    case Rejected(NoState) => r == Err(InvalidInput)
    case Rejected(StillActive(age)) => r == Err(AgentBusy(t, a, age))
    case Rejected(NoValidCheckpoint(_, None)) => r == Err(NoCheckpointAvailable(t, a))
    case Rejected(NoValidCheckpoint(state, Some(memory))) =>
      r == Err(TornWrite(a, state.rec.workingMemoryVersion, memory.rec.version))
    case _ => false
  }

  lemma ThreeSteps(c: P.Config, h: P.HydrateId, nowSecs: nat, version: nat)
    ensures P.Run(c, [P.ReadState(h, nowSecs), P.ReadMemory(h), P.Recover(h, version)]) ==
            P.StepRecover(P.StepReadMemory(P.StepReadState(c, h, nowSecs), h), h, version)
  {
    var c1 := P.StepReadState(c, h, nowSecs);
    var c2 := P.StepReadMemory(c1, h);
    RunCons(c, P.ReadState(h, nowSecs), [P.ReadMemory(h), P.Recover(h, version)]);
    RunCons(c1, P.ReadMemory(h), [P.Recover(h, version)]);
    RunCons(c2, P.Recover(h, version), []);
    assert [P.ReadState(h, nowSecs), P.ReadMemory(h), P.Recover(h, version)]
        == [P.ReadState(h, nowSecs)] + [P.ReadMemory(h), P.Recover(h, version)];
    assert [P.ReadMemory(h), P.Recover(h, version)] == [P.ReadMemory(h)] + [P.Recover(h, version)];
    assert [P.Recover(h, version)] == [P.Recover(h, version)] + [];
    assert P.Run(P.StepRecover(c2, h, version), []) == P.StepRecover(c2, h, version);
  }

  // The version in the newest checkpoint that verifies.
  ghost function CheckpointVersion(checkpoints: map<nat, P.Snapshot>): nat {
    match P.NewestSound(checkpoints)
    case None => 0
    case Some(n) => if n in checkpoints then checkpoints[n].memory.version else 0
  }

  // The outcome of reading state and memory, and recovering if need be, from one unchanging store.
  ghost function Outcome(store: P.AgentStore, at: Option<P.Commit>, nowSecs: nat): P.Hydrate {
    match store.state
    case None => P.Rejected(P.NoState)
    case Some(cell) =>
      if Busy(cell.rec, nowSecs) then P.Rejected(P.StillActive(HydratedAge(cell.rec, nowSecs)))
      else if store.memory.Some? && store.memory.value.rec.version == cell.rec.workingMemoryVersion then
        P.Hydrated(cell, at, store.memory, store.memory.value.rec, false)
      else
        match P.NewestSound(store.checkpoints)
        case None => P.Rejected(P.NoValidCheckpoint(cell, store.memory))
        case Some(n) =>
          if n in store.checkpoints then P.Hydrated(cell, at, store.memory, store.checkpoints[n].memory, true)
          else P.Rejected(P.NoValidCheckpoint(cell, store.memory))
  }

  lemma ThreeStepsOutcome(c: P.Config, h: P.HydrateId, nowSecs: nat)
    requires h !in c.hydrates
    requires var newest := P.NewestSound(c.store.checkpoints); newest.Some? ==> newest.value in c.store.checkpoints
    ensures var version := CheckpointVersion(c.store.checkpoints);
            var d := P.Run(c, [P.ReadState(h, nowSecs), P.ReadMemory(h), P.Recover(h, version)]);
            && h in d.hydrates && d.hydrates[h] == Outcome(c.store, P.Committed(c), nowSecs)
            && d.store == c.store && d.freezes == c.freezes
  {
    ThreeSteps(c, h, nowSecs, CheckpointVersion(c.store.checkpoints));
  }

  lemma OutcomeAgrees(codec: Codec, entries: Entries, t: string, a: string, nowSecs: nat, store: P.AgentStore,
                      at: Option<P.Commit>)
    requires AgentStateKey(t, a) in entries ==> entries[AgentStateKey(t, a)].value.StateValue?
    requires WorkingMemoryKey(t, a) in entries ==> entries[WorkingMemoryKey(t, a)].value.MemoryValue?
    requires store.state == StateOf(entries, t, a) && store.memory == MemoryOf(entries, t, a)
    requires var newest := P.NewestSound(store.checkpoints);
             && (newest.Some? ==> newest.value in store.checkpoints)
             && RecoverSpec(codec, entries, t, a) ==
                match newest
                case None => Err(NoCheckpointAvailable(t, a))
                case Some(n) => Ok(store.checkpoints[n].memory)
    ensures Agrees(HydrateSpec(codec, entries, t, a, nowSecs), Outcome(store, at, nowSecs), t, a)
  {
  }

  // A hydration with nothing in between is the three actions of the transition system, with the
  // version that recovery finds in the checkpoint.
  lemma HydrateRefinesProtocol(codec: Codec, kv: Kv, t: string, a: string, nowSecs: nat, c: P.Config, h: P.HydrateId)
    requires Stands(codec, kv, t, a, c) && Typed(kv.entries, t, a) && h !in c.hydrates
    ensures var version := CheckpointVersion(c.store.checkpoints);
            var d := P.Run(c, [P.ReadState(h, nowSecs), P.ReadMemory(h), P.Recover(h, version)]);
            && h in d.hydrates
            && Agrees(HydrateSpec(codec, kv.entries, t, a, nowSecs), d.hydrates[h], t, a)
            && d.store == c.store && d.freezes == c.freezes
  {
    RecoverRefines(codec, kv.entries, t, a);
    ThreeStepsOutcome(c, h, nowSecs);
    OutcomeAgrees(codec, kv.entries, t, a, nowSecs, c.store, P.Committed(c));
  }
}
