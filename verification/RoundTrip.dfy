/** Freezing and then hydrating, on the store as a whole: what each outcome of a freeze leaves for
    the next hydration of the same agent, and of every other agent.  */
module RoundTrip {
  import opened Outcomes
  import opened Records
  import opened Text
  import opened Keys
  import opened StateStore
  import opened Freeze
  import opened Hydrate
  import opened HydrateOutcomes

  // The three keys a freeze writes are different, whatever the ids, and the first two are not
  // checkpoints.
  lemma ThreeKeys(t: string, a: string, seqno: nat)
    ensures AgentStateKey(t, a) != WorkingMemoryKey(t, a)
    ensures CheckpointKey(t, a, seqno) != AgentStateKey(t, a) && CheckpointKey(t, a, seqno) != WorkingMemoryKey(t, a)
    ensures !(CheckpointPrefix(t, a) <= WorkingMemoryKey(t, a))
  {
    var owner := t + KEY_SEP + a + KEY_SEP;
    assert CheckpointPrefix(t, a)[|owner|] == CheckpointKey(t, a, seqno)[|owner|] == 'c';
    assert WorkingMemoryKey(t, a)[|owner|] == 'w' && AgentStateKey(t, a)[|owner|] == 's';
  }

  /******* The three writes *******/

  function NewMemory(input: FreezeInput, at: Surroundings): WorkingMemoryRecord {
    WorkingMemoryRecord(input.workingMemory.version + 1, Some(at.snapshotAt), LATEST_SCHEMA_VERSION,
                        input.workingMemory.body)
  }

  function NewState(input: FreezeInput, at: Surroundings): AgentStateRecord {
    AgentStateRecord(STATUS_FROZEN, Some(at.frozenAt), input.state.lastHydratedAt, "", [],
                     input.workingMemory.version + 1, LATEST_SCHEMA_VERSION, input.state.body)
  }

  predicate MemoryGuardHolds(kv: Kv, input: FreezeInput) {
    var key := WorkingMemoryKey(input.tenantId, input.agentId);
    key in kv.entries && kv.entries[key].etag == input.memoryEtag
  }

  predicate StateGuardHolds(kv: Kv, input: FreezeInput) {
    var key := AgentStateKey(input.tenantId, input.agentId);
    key in kv.entries && kv.entries[key].etag == input.stateEtag
  }

  function AfterMemory(kv: Kv, input: FreezeInput, at: Surroundings): Kv {
    Written(kv, WorkingMemoryKey(input.tenantId, input.agentId), MemoryValue(NewMemory(input, at)), MEMORY_TTL)
  }

  function NewCheckpointRecord(codec: Codec, input: FreezeInput, at: Surroundings): CheckpointRecord {
    CheckpointRecord(input.tenantId, input.agentId, at.nowSecs, input.checkpointTrigger, "",
                     NewState(input, at), NewMemory(input, at),
                     codec.sha256(codec.stateBytes(NewState(input, at)) + codec.memoryBytes(NewMemory(input, at))),
                     Some(at.createdAt), LATEST_SCHEMA_VERSION)
  }

  // The store after a freeze that succeeded: two entries, or three if the checkpoint write got through.
  function AfterFreeze(codec: Codec, kv: Kv, input: FreezeInput, at: Surroundings): Kv {
    var t, a := input.tenantId, input.agentId;
    var both := kv.entries[WorkingMemoryKey(t, a) := Entry(MemoryValue(NewMemory(input, at)), kv.next, Seconds(86400))]
                          [AgentStateKey(t, a) := Entry(StateValue(NewState(input, at)), kv.next + 1, NoTtl)];
    if at.checkpointUp then
      Kv(both[CheckpointKey(t, a, at.nowSecs) :=
                Entry(CheckpointValue(NewCheckpointRecord(codec, input, at)), kv.next + 2, NoTtl)], kv.next + 3)
    else Kv(both, kv.next + 2)
  }

  // Which of its outcomes a freeze has depends only on the two guards and on which writes get through;
  // its error is that of the first write that fails, a conflict naming the key concerned.
  lemma FreezeOutcomes(codec: Codec, kv: Kv, input: FreezeInput, at: Surroundings)
    ensures var (kv', r) := FreezeSpec(codec, kv, input, at);
            && (r.Ok? <==> at.memoryUp && at.stateUp && MemoryGuardHolds(kv, input) && StateGuardHolds(kv, input))
            && (r.Ok? ==> r.value == (if at.checkpointUp then at.nowSecs else 0)
                          && kv' == AfterFreeze(codec, kv, input, at))
            && (r.Err? ==> kv' == if at.memoryUp && MemoryGuardHolds(kv, input) then AfterMemory(kv, input, at) else kv)
            && (r.Err? ==>
                  r.error == (if !at.memoryUp then DaprError
                              else if !MemoryGuardHolds(kv, input)
                              then ETagConflict(WorkingMemoryKey(input.tenantId, input.agentId))
                              else if !at.stateUp then DaprError
                              else ETagConflict(AgentStateKey(input.tenantId, input.agentId))))
  {
  }

  /******* Round trip *******/

  // What a successful freeze wrote is what the next hydration returns, at any later time: not as a
  // recovery, with the tags of these two writes, and with nothing changed but version, status,
  // timestamps, task fields and schema version.
  lemma FreezeHydrateRoundTrip(codec: Codec, kv: Kv, input: FreezeInput, at: Surroundings, nowSecs: nat)
    ensures var (kv', r) := FreezeSpec(codec, kv, input, at);
            r.Ok? ==>
              HydrateSpec(codec, kv'.entries, input.tenantId, input.agentId, nowSecs) ==
              Ok(HydrationResult(NewState(input, at), NewMemory(input, at), false, kv.next + 1, Some(kv.next)))
    ensures NewState(input, at).status == 1 && NewState(input, at).schemaVersion == 1 == NewMemory(input, at).schemaVersion
  {
    FreezeOutcomes(codec, kv, input, at);
    ThreeKeys(input.tenantId, input.agentId, at.nowSecs);
  }

  // And if the memory record expires before that hydration, the checkpoint brings the same memory
  // back, as long as no other valid checkpoint of the agent has a greater key.
  lemma FreezeExpireRoundTrip(codec: Codec, kv: Kv, input: FreezeInput, at: Surroundings, nowSecs: nat)
    requires FreezeSpec(codec, kv, input, at).1.Ok? && at.checkpointUp
    requires var t, a := input.tenantId, input.agentId;
             forall k :: k in kv.entries && CheckpointPrefix(t, a) <= k && ValidCheckpoint(codec, kv.entries[k]) ==>
               !LexLess(CheckpointKey(t, a, at.nowSecs), k)
    ensures var t, a := input.tenantId, input.agentId;
            var kv' := FreezeSpec(codec, kv, input, at).0;
            HydrateSpec(codec, kv'.entries - {WorkingMemoryKey(t, a)}, t, a, nowSecs) ==
            Ok(HydrationResult(NewState(input, at), NewMemory(input, at), true, kv.next + 1, None))
  {
    var t, a := input.tenantId, input.agentId;
    FreezeOutcomes(codec, kv, input, at);
    ThreeKeys(t, a, at.nowSecs);
    var entries := AfterFreeze(codec, kv, input, at).entries - {WorkingMemoryKey(t, a)};
    var prefix, key := CheckpointPrefix(t, a), CheckpointKey(t, a, at.nowSecs);
    forall k | k in entries && prefix <= k && ValidCheckpoint(codec, entries[k]) && k != key
      ensures LexLess(k, key)
    {
      LexTotal(k, key);
    }
    assert IsNewestValid(codec, entries, prefix, key);
    forall other | IsNewestValid(codec, entries, prefix, other)
      ensures other == key
    {
      NewestValidIsUnique(codec, entries, prefix, other, key);
    }
  }

  // What hydration makes of a store in which only the memory record is new.
  function AfterTornWrite(codec: Codec, state: AgentStateRecord, stateEtag: ETag, memory: WorkingMemoryRecord,
                          memoryEtag: ETag, agent: string, recovery: Result<WorkingMemoryRecord, StateError>)
    : Result<HydrationResult, StateError>
  {
    if memory.version == state.workingMemoryVersion then
      Ok(HydrationResult(state, memory, false, stateEtag, Some(memoryEtag)))
    else match recovery
      case Ok(restored) => Ok(HydrationResult(state, restored, true, stateEtag, Some(memoryEtag)))
      case Err(_) => Err(TornWrite(agent, state.workingMemoryVersion, memory.version))
  }

  // A failed freeze.  If its memory write did not get through, hydration is as before.  If only the
  // state write failed, hydration takes the half-written pair for a whole one exactly when the
  // version the freeze wrote is the one the stored state already names; otherwise it restores what
  // the checkpoints held before the freeze, or reports a torn write with both versions.
  lemma FailedFreezeIsSeen(codec: Codec, kv: Kv, input: FreezeInput, at: Surroundings, nowSecs: nat)
    requires FreezeSpec(codec, kv, input, at).1.Err?
    ensures var t, a := input.tenantId, input.agentId;
            var after := HydrateSpec(codec, FreezeSpec(codec, kv, input, at).0.entries, t, a, nowSecs);
            var key := AgentStateKey(t, a);
            if at.memoryUp && MemoryGuardHolds(kv, input) && key in kv.entries && kv.entries[key].value.StateValue?
               && !Busy(kv.entries[key].value.state, nowSecs)
            then after == AfterTornWrite(codec, kv.entries[key].value.state, kv.entries[key].etag,
                                         NewMemory(input, at), kv.next, a, RecoverSpec(codec, kv.entries, t, a))
            else after == HydrateSpec(codec, kv.entries, t, a, nowSecs)
  {
    var t, a := input.tenantId, input.agentId;
    FreezeOutcomes(codec, kv, input, at);
    ThreeKeys(t, a, 0);
    SameCheckpointsSameRecovery(codec, kv.entries, AfterMemory(kv, input, at).entries, t, a);
  }

  // So under the version hypothesis a freeze that stops between its two writes never goes unnoticed.
  lemma TornFreezeIsDetected(codec: Codec, kv: Kv, input: FreezeInput, at: Surroundings, nowSecs: nat)
    requires FreezeSpec(codec, kv, input, at).1.Err? && at.memoryUp && MemoryGuardHolds(kv, input)
    requires var key := AgentStateKey(input.tenantId, input.agentId);
             key in kv.entries && kv.entries[key].value.StateValue?
             && kv.entries[key].value.state.workingMemoryVersion <= input.workingMemory.version
    ensures var after := HydrateSpec(codec, FreezeSpec(codec, kv, input, at).0.entries,
                                     input.tenantId, input.agentId, nowSecs);
            after.Ok? ==> after.value.recoveredFromCheckpoint
  {
  }

  // A hydration that finds a memory record returns the current tags of both records.
  lemma HydrationHoldsTheTags(codec: Codec, kv: Kv, t: string, a: string, nowSecs: nat)
    ensures var r := HydrateSpec(codec, kv.entries, t, a, nowSecs);
            r.Ok? ==>
              && Passes(kv, AgentStateKey(t, a), Some(r.value.stateEtag))
              && (r.value.memoryEtag.Some? <==> WorkingMemoryKey(t, a) in kv.entries)
              && (r.value.memoryEtag.Some? ==> Passes(kv, WorkingMemoryKey(t, a), r.value.memoryEtag))
  {
  }

  // Hydrating, recovered or not, then freezing with the tags it returned: the freeze succeeds if its
  // writes get through, the next hydration returns what it wrote, and a freeze still holding an older
  // memory tag is refused before it writes anything.
  lemma HydrateFreezeHeals(codec: Codec, kv: Kv, input: FreezeInput, at: Surroundings, nowSecs: nat, later: nat,
                           stale: FreezeInput, at': Surroundings)
    requires var r := HydrateSpec(codec, kv.entries, input.tenantId, input.agentId, nowSecs);
             r.Ok? && r.value.memoryEtag == Some(input.memoryEtag) && r.value.stateEtag == input.stateEtag
    requires at.memoryUp && at.stateUp
    requires stale.tenantId == input.tenantId && stale.agentId == input.agentId && stale.memoryEtag < kv.next
    ensures var (kv', r) := FreezeSpec(codec, kv, input, at);
            && r.Ok?
            && HydrateSpec(codec, kv'.entries, input.tenantId, input.agentId, later) ==
               Ok(HydrationResult(NewState(input, at), NewMemory(input, at), false, kv.next + 1, Some(kv.next)))
            && FreezeSpec(codec, kv', stale, at') ==
               (kv', Err(if at'.memoryUp then ETagConflict(WorkingMemoryKey(input.tenantId, input.agentId))
                         else DaprError))
  {
    HydrationHoldsTheTags(codec, kv, input.tenantId, input.agentId, nowSecs);
    FreezeOutcomes(codec, kv, input, at);
    ThreeKeys(input.tenantId, input.agentId, at.nowSecs);
    FreezeHydrateRoundTrip(codec, kv, input, at, later);
  }

  /******* Frame *******/

  lemma KeepsOtherKeys(kv: Kv, key: string, value: Value, etag: Option<ETag>, ttl: TtlPolicy, up: bool)
    ensures var entries := Put(kv, key, value, etag, ttl, up).0.entries;
            forall k :: k != key ==> (k in entries <==> k in kv.entries) && (k in entries ==> entries[k] == kv.entries[k])
  {
  }

  // A write of a key of one owner is outside everything hydration of another owner looks at.
  lemma PutKeepsHydration(codec: Codec, kv: Kv, key: Key, value: Value, etag: Option<ETag>, ttl: TtlPolicy, up: bool,
                          t: string, a: string, nowSecs: nat)
    requires ValidKey(key) && ValidId(t) && ValidId(a) && OwnerText(key.tenant, key.agent) != OwnerText(t, a)
    ensures HydrateSpec(codec, Put(kv, Print(key), value, etag, ttl, up).0.entries, t, a, nowSecs) ==
            HydrateSpec(codec, kv.entries, t, a, nowSecs)
  {
    BuildersPrint(t, a, 0, "");
    SameKey(key, Key(t, a, State));
    SameKey(key, Key(t, a, WorkingMemory));
    CheckpointScan(t, a, key);
    KeepsOtherKeys(kv, Print(key), value, etag, ttl, up);
    SameReadsSameHydration(codec, kv.entries, Put(kv, Print(key), value, etag, ttl, up).0.entries, t, a, nowSecs);
  }

  // A freeze of one agent, whatever its outcome, leaves hydration of every other agent unchanged
  // if its ids are not ambiguous.
  lemma FreezeKeepsOtherHydrations(codec: Codec, kv: Kv, input: FreezeInput, at: Surroundings,
                                   t: string, a: string, nowSecs: nat)
    requires ValidId(input.tenantId) && ValidId(input.agentId) && !Ambiguous(input.tenantId, input.agentId)
    requires ValidId(t) && ValidId(a) && (t != input.tenantId || a != input.agentId)
    requires at.nowSecs < U64_LIMIT
    ensures HydrateSpec(codec, FreezeSpec(codec, kv, input, at).0.entries, t, a, nowSecs) ==
            HydrateSpec(codec, kv.entries, t, a, nowSecs)
  {
    var u, b := input.tenantId, input.agentId;
    ValidationGap(u, b);
    assert OwnerText(u, b) != OwnerText(t, a);
    BuildersPrint(u, b, at.nowSecs, "");
    var memory := FrozenMemory(input.workingMemory, at.snapshotAt);
    var state := FrozenState(input.state, memory.version, at.frozenAt);
    var kv1 := Put(kv, WorkingMemoryKey(u, b), MemoryValue(memory), Some(input.memoryEtag), MEMORY_TTL, at.memoryUp).0;
    PutKeepsHydration(codec, kv, Key(u, b, WorkingMemory), MemoryValue(memory), Some(input.memoryEtag), MEMORY_TTL,
                      at.memoryUp, t, a, nowSecs);
    var kv2 := Put(kv1, AgentStateKey(u, b), StateValue(state), Some(input.stateEtag), NoTtl, at.stateUp).0;
    PutKeepsHydration(codec, kv1, Key(u, b, State), StateValue(state), Some(input.stateEtag), NoTtl,
                      at.stateUp, t, a, nowSecs);
    PutKeepsHydration(codec, kv2, Key(u, b, Checkpoint(at.nowSecs)),
                      CheckpointValue(NewCheckpoint(codec, input, state, memory, at)), None, NoTtl,
                      at.checkpointUp, t, a, nowSecs);
  }

  // If they are ambiguous, some other pair of accepted ids hydrates to this agent's records.
  lemma AmbiguousAgentsShareRecords(codec: Codec, kv: Kv, input: FreezeInput, at: Surroundings, nowSecs: nat)
    returns (t: string, a: string)
    requires ValidId(input.tenantId) && ValidId(input.agentId) && Ambiguous(input.tenantId, input.agentId)
    requires FreezeSpec(codec, kv, input, at).1.Ok?
    ensures ValidId(t) && ValidId(a) && t != input.tenantId
    ensures HydrateSpec(codec, FreezeSpec(codec, kv, input, at).0.entries, t, a, nowSecs) ==
            Ok(HydrationResult(NewState(input, at), NewMemory(input, at), false, kv.next + 1, Some(kv.next)))
  {
    t, a := MoveBar(input.tenantId, input.agentId);
    assert AgentStateKey(t, a) == AgentStateKey(input.tenantId, input.agentId);
    assert WorkingMemoryKey(t, a) == WorkingMemoryKey(input.tenantId, input.agentId);
    FreezeHydrateRoundTrip(codec, kv, input, at, nowSecs);
  }
}
