/** Hydrating an agent: two reads, the stale guard, the version check, and checkpoint recovery. */
module Hydrate {
  import opened Outcomes
  import opened Records
  import opened Text
  import opened Keys
  import opened StateStore

  // The source drops the two ETags, which the next freeze needs; they are kept here.
  datatype HydrationResult = HydrationResult(
    state: AgentStateRecord,
    workingMemory: WorkingMemoryRecord,
    recoveredFromCheckpoint: bool,
    stateEtag: ETag,
    memoryEtag: Option<ETag>)

  /******* Recovery *******/

  predicate ValidCheckpoint(codec: Codec, entry: Entry) {
    entry.value.CheckpointValue? && Verifies(codec, entry.value.checkpoint)
  }

  // The greatest key with the prefix whose checkpoint verifies.
  ghost predicate IsNewestValid(codec: Codec, entries: Entries, prefix: string, key: string) {
    && key in entries && prefix <= key && ValidCheckpoint(codec, entries[key])
    && forall k :: k in entries && prefix <= k && ValidCheckpoint(codec, entries[k]) && k != key ==> LexLess(k, key)
  }

  ghost function RecoverSpec(codec: Codec, entries: Entries, tenant: string, agent: string)
    : Result<WorkingMemoryRecord, StateError>
  {
    var prefix := CheckpointPrefix(tenant, agent);
    if exists key :: IsNewestValid(codec, entries, prefix, key) then
      var key :| IsNewestValid(codec, entries, prefix, key);
      Ok(entries[key].value.checkpoint.memorySnapshot)
    else Err(NoCheckpointAvailable(tenant, agent))
  }

  lemma NewestValidIsUnique(codec: Codec, entries: Entries, prefix: string, key: string, key': string)
    requires IsNewestValid(codec, entries, prefix, key) && IsNewestValid(codec, entries, prefix, key')
    ensures key == key'
  {
    LexTotal(key, key');
  }

  predicate Descending(keys: seq<string>) {
    forall i, j :: 0 <= i < j < |keys| ==> !LexLess(keys[i], keys[j])
  }

  function InsertDescending(key: string, keys: seq<string>): (r: seq<string>)
    requires Descending(keys)
    ensures Descending(r) && forall k :: k in r <==> k == key || k in keys
  {
    if keys == [] then [key]
    else if LexLess(keys[0], key) then
      LexLeads(key, keys);
      [key] + keys
    else
      var rest := InsertDescending(key, keys[1..]);
      assert forall k :: k in rest ==> !LexLess(keys[0], k);
      [keys[0]] + rest
  }

  // A key above the head of a descending sequence is above all of it.
  lemma LexLeads(key: string, keys: seq<string>)
    requires Descending(keys) && keys != [] && LexLess(keys[0], key)
    ensures forall k :: k in keys ==> !LexLess(key, k)
  {
    forall k | k in keys
      ensures !LexLess(key, k)
    {
      if LexLess(key, k) {
        LexTransitive(keys[0], key, k);
        LexTotal(keys[0], k);
      }
    }
  }

  function SortDescending(keys: seq<string>): (r: seq<string>)
    ensures Descending(r) && forall k :: k in r <==> k in keys
  {
    if keys == [] then [] else InsertDescending(keys[0], SortDescending(keys[1..]))
  }

  /******* Hydration *******/

  ghost function HydrateSpec(codec: Codec, entries: Entries, tenant: string, agent: string, nowSecs: nat)
    : Result<HydrationResult, StateError>
  {
    var stateKey, memoryKey := AgentStateKey(tenant, agent), WorkingMemoryKey(tenant, agent);
    if stateKey !in entries then Err(InvalidInput)
    else if !entries[stateKey].value.StateValue? then Err(ProtoError)
    else
      var state, stateEtag := entries[stateKey].value.state, entries[stateKey].etag;
      if Busy(state, nowSecs) then Err(AgentBusy(tenant, agent, HydratedAge(state, nowSecs)))
      else if memoryKey !in entries then
        match RecoverSpec(codec, entries, tenant, agent)
        case Err(error) => Err(error)
        case Ok(memory) => Ok(HydrationResult(state, memory, true, stateEtag, None))
      else if !entries[memoryKey].value.MemoryValue? then Err(ProtoError)
      else
        var memory, memoryEtag := entries[memoryKey].value.memory, entries[memoryKey].etag;
        if memory.version == state.workingMemoryVersion then
          Ok(HydrationResult(state, memory, false, stateEtag, Some(memoryEtag)))
        else
          match RecoverSpec(codec, entries, tenant, agent)
          case Err(_) => Err(TornWrite(agent, state.workingMemoryVersion, memory.version))
          case Ok(recovered) => Ok(HydrationResult(state, recovered, true, stateEtag, Some(memoryEtag)))
  }

  class AgentHydrationManager {
    const store: DaprStateStore
    const codec: Codec
    const staleActiveThresholdSecs: nat := STALE_ACTIVE_THRESHOLD_SECS

    constructor (store: DaprStateStore, codec: Codec)
      ensures this.store == store && this.codec == codec
    {
      this.store, this.codec := store, codec;
    }

    method Hydrate(tenant: string, agent: string, nowSecs: nat) returns (r: Result<HydrationResult, StateError>)
      ensures r == HydrateSpec(codec, store.entries, tenant, agent, nowSecs)
    {
      var stateKey, memoryKey := AgentStateKey(tenant, agent), WorkingMemoryKey(tenant, agent);

      // Step 1: the state record.
      var stateRecord := store.Get(stateKey);
      if stateRecord.None? {
        return Err(InvalidInput);
      }
      if !stateRecord.value.value.StateValue? {
        return Err(ProtoError);
      }
      var state, stateEtag := stateRecord.value.value.state, stateRecord.value.etag;

      // Step 2: the stale-ACTIVE guard.
      if state.status == STATUS_ACTIVE {
        var age := HydratedAge(state, nowSecs);
        if age < staleActiveThresholdSecs {
          return Err(AgentBusy(tenant, agent, age));
        }
      }

      // Step 3: working memory.
      var memoryRecord := store.Get(memoryKey);
      match memoryRecord {
        case None =>
          var recovery := RecoverFromCheckpoint(tenant, agent);
          match recovery {
            case Err(error) => return Err(error);
            case Ok(memory) => return Ok(HydrationResult(state, memory, true, stateEtag, None));
          }
        case Some(record) =>
          if !record.value.MemoryValue? {
            return Err(ProtoError);
          }
          var memory := record.value.memory;
          // Step 4: the consistency check.
          if memory.version != state.workingMemoryVersion {
            var recovery := RecoverFromCheckpoint(tenant, agent);
            match recovery {
              case Err(_) => return Err(TornWrite(agent, state.workingMemoryVersion, memory.version));
              case Ok(recovered) => return Ok(HydrationResult(state, recovered, true, stateEtag, Some(record.etag)));
            }
          }
          return Ok(HydrationResult(state, memory, false, stateEtag, Some(record.etag)));
      }
    }

    // List the checkpoint keys, newest first, and restore from the first that verifies.
    method RecoverFromCheckpoint(tenant: string, agent: string) returns (r: Result<WorkingMemoryRecord, StateError>)
      ensures r == RecoverSpec(codec, store.entries, tenant, agent)
    {
      var prefix := CheckpointPrefix(tenant, agent);
      var listed := store.ListKeysWithPrefix(prefix);
      var keys := SortDescending(listed);
      for i := 0 to |keys|
        invariant forall j :: 0 <= j < i ==> !ValidCheckpoint(codec, store.entries[keys[j]])
      {
        var entry := store.Get(keys[i]);
        if entry.Some? && ValidCheckpoint(codec, entry.value) {
          forall k | k in store.entries && prefix <= k && ValidCheckpoint(codec, store.entries[k]) && k != keys[i]
            ensures LexLess(k, keys[i])
          {
            assert k in keys;
            var j :| 0 <= j < |keys| && keys[j] == k;
            LexTotal(k, keys[i]);
          }
          assert IsNewestValid(codec, store.entries, prefix, keys[i]);
          forall key | IsNewestValid(codec, store.entries, prefix, key)
            ensures key == keys[i]
          {
            NewestValidIsUnique(codec, store.entries, prefix, key, keys[i]);
          }
          return Ok(entry.value.value.checkpoint.memorySnapshot);
        }
      }
      assert forall k :: k in store.entries && prefix <= k ==> k in keys;
      return Err(NoCheckpointAvailable(tenant, agent));
    }
  }
}
