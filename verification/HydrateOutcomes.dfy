/** What recovery and hydration answer, said of the stored records and not of the code's branches. */
module HydrateOutcomes {
  import opened Outcomes
  import opened Records
  import opened Text
  import opened Keys
  import opened StateStore
  import opened Hydrate

  /******* Recovery *******/

  // The key holds a checkpoint whose stored digest is the SHA-256 of its two snapshots.
  ghost predicate Intact(codec: Codec, entries: Entries, prefix: string, key: string) {
    && key in entries && prefix <= key && entries[key].value.CheckpointValue?
    && var checkpoint := entries[key].value.checkpoint;
       checkpoint.sha256Digest ==
       codec.sha256(codec.stateBytes(checkpoint.stateSnapshot) + codec.memoryBytes(checkpoint.memorySnapshot))
  }

  // Among finitely many keys one has no greater.
  lemma {:induction false} Greatest(keys: set<string>) returns (key: string)
    requires keys != {}
    ensures key in keys && forall k :: k in keys ==> !LexLess(key, k)
    decreases |keys|
  {
    var first :| first in keys;
    var rest := keys - {first};
    if rest == {} {
      key := first;
      assert keys == {first};
      LexTotal(first, first);
    } else {
      var other := Greatest(rest);
      key := if LexLess(first, other) then other else first;
      forall k | k in keys
        ensures !LexLess(key, k)
      {
        LexTotal(first, first);
        LexTotal(first, other);
        if k != first {
          assert k in rest;
          if key == first && LexLess(first, k) { Below(other, first, k); }
        }
      }
    }
  }

  lemma Below(low: string, middle: string, high: string)
    requires !LexLess(middle, low) && LexLess(middle, high)
    ensures LexLess(low, high)
  {
    LexTotal(low, middle);
    if low != middle { LexTotal(low, middle); LexTransitive(low, middle, high); }
  }

  lemma NewestValidIsIntact(codec: Codec, entries: Entries, prefix: string, key: string)
    ensures IsNewestValid(codec, entries, prefix, key) <==>
            Intact(codec, entries, prefix, key)
            && forall k :: Intact(codec, entries, prefix, k) ==> !LexLess(key, k)
  {
    forall k
      ensures (k in entries && prefix <= k && ValidCheckpoint(codec, entries[k])) <==> Intact(codec, entries, prefix, k)
      ensures k == key || LexLess(k, key) <==> !LexLess(key, k)
    {
      LexTotal(k, key);
    }
  }

  // Recovery restores m exactly when m is the memory snapshot of an intact checkpoint with no intact
  // checkpoint of a greater key, and fails exactly when no checkpoint is intact.
  lemma RecoversNewestIntact(codec: Codec, entries: Entries, t: string, a: string, m: WorkingMemoryRecord)
    ensures var prefix := CheckpointPrefix(t, a);
            RecoverSpec(codec, entries, t, a) == Ok(m) <==>
            exists key :: && Intact(codec, entries, prefix, key)
                          && entries[key].value.checkpoint.memorySnapshot == m
                          && forall k :: Intact(codec, entries, prefix, k) ==> !LexLess(key, k)
    ensures RecoverSpec(codec, entries, t, a) == Err(NoCheckpointAvailable(t, a)) <==>
            forall key :: !Intact(codec, entries, CheckpointPrefix(t, a), key)
  {
    var prefix := CheckpointPrefix(t, a);
    forall key
      ensures IsNewestValid(codec, entries, prefix, key) <==>
              Intact(codec, entries, prefix, key)
              && forall k :: Intact(codec, entries, prefix, k) ==> !LexLess(key, k)
    {
      NewestValidIsIntact(codec, entries, prefix, key);
    }
    var intact := set k | k in entries && Intact(codec, entries, prefix, k);
    if intact != {} {
      var key := Greatest(intact);
      assert IsNewestValid(codec, entries, prefix, key);
      forall other | IsNewestValid(codec, entries, prefix, other)
        ensures other == key
      {
        NewestValidIsUnique(codec, entries, prefix, other, key);
      }
    } else {
      forall key
        ensures !Intact(codec, entries, prefix, key)
      {
        assert key !in intact;
      }
    }
  }

  // Recovery depends on nothing but the intact checkpoints under the agent's prefix.
  lemma SameIntactSameRecovery(codec: Codec, entries: Entries, entries': Entries, t: string, a: string)
    requires forall k :: Intact(codec, entries, CheckpointPrefix(t, a), k) <==>
                         Intact(codec, entries', CheckpointPrefix(t, a), k)
    requires forall k :: Intact(codec, entries, CheckpointPrefix(t, a), k) ==>
               k in entries' && entries[k].value == entries'[k].value
    ensures RecoverSpec(codec, entries', t, a) == RecoverSpec(codec, entries, t, a)
  {
    var r, r' := RecoverSpec(codec, entries, t, a), RecoverSpec(codec, entries', t, a);
    if r.Ok? { RecoversNewestIntact(codec, entries, t, a, r.value); RecoversNewestIntact(codec, entries', t, a, r.value); }
    if r'.Ok? { RecoversNewestIntact(codec, entries, t, a, r'.value); RecoversNewestIntact(codec, entries', t, a, r'.value); }
  }

  lemma SameCheckpointsSameRecovery(codec: Codec, entries: Entries, entries': Entries, t: string, a: string)
    requires forall k :: CheckpointPrefix(t, a) <= k ==>
               (k in entries <==> k in entries') && (k in entries ==> entries[k] == entries'[k])
    ensures RecoverSpec(codec, entries', t, a) == RecoverSpec(codec, entries, t, a)
  {
    SameIntactSameRecovery(codec, entries, entries', t, a);
  }

  // Hydration depends on nothing but the agent's two keys and its checkpoint prefix.
  lemma SameReadsSameHydration(codec: Codec, entries: Entries, entries': Entries, t: string, a: string, nowSecs: nat)
    requires forall k :: CheckpointPrefix(t, a) <= k || k == AgentStateKey(t, a) || k == WorkingMemoryKey(t, a) ==>
               (k in entries <==> k in entries') && (k in entries ==> entries[k] == entries'[k])
    ensures HydrateSpec(codec, entries', t, a, nowSecs) == HydrateSpec(codec, entries, t, a, nowSecs)
  {
    SameCheckpointsSameRecovery(codec, entries, entries', t, a);
  }

  // A checkpoint whose digest was spoiled might as well not be there.
  lemma SpoiledCheckpointIsSkipped(codec: Codec, entries: Entries, t: string, a: string, key: string, digest: Bytes)
    requires key in entries && entries[key].value.CheckpointValue?
    requires var checkpoint := entries[key].value.checkpoint;
             digest != codec.sha256(codec.stateBytes(checkpoint.stateSnapshot) +
                                    codec.memoryBytes(checkpoint.memorySnapshot))
    ensures var spoiled := entries[key].value.checkpoint.(sha256Digest := digest);
            RecoverSpec(codec, entries[key := entries[key].(value := CheckpointValue(spoiled))], t, a) ==
            RecoverSpec(codec, entries - {key}, t, a)
  {
    var spoiled := entries[key].value.checkpoint.(sha256Digest := digest);
    SameIntactSameRecovery(codec, entries - {key},
                           entries[key := entries[key].(value := CheckpointValue(spoiled))], t, a);
  }

  /******* Hydration *******/

  // Every error of hydration but those of recovery, each with its exact cause.
  lemma HydrationRefusals(codec: Codec, entries: Entries, t: string, a: string, nowSecs: nat)
    ensures var r := HydrateSpec(codec, entries, t, a, nowSecs);
            var readable := AgentStateKey(t, a) in entries && entries[AgentStateKey(t, a)].value.StateValue?;
            && (r == Err(InvalidInput) <==> AgentStateKey(t, a) !in entries)
            && (r == Err(ProtoError) <==>
                  || (AgentStateKey(t, a) in entries && !entries[AgentStateKey(t, a)].value.StateValue?)
                  || (readable && !Busy(entries[AgentStateKey(t, a)].value.state, nowSecs)
                      && WorkingMemoryKey(t, a) in entries && !entries[WorkingMemoryKey(t, a)].value.MemoryValue?))
            && (r.Err? && r.error.AgentBusy? <==> readable && Busy(entries[AgentStateKey(t, a)].value.state, nowSecs))
  {
  }

  // An agent is busy exactly when its record is ACTIVE and less than five minutes have passed since
  // its last hydration, a missing time counting as the epoch and a negative one as its 64-bit pattern;
  // the error reports the seconds passed, or none if that time is still to come.
  lemma BusyUntil(codec: Codec, entries: Entries, t: string, a: string, nowSecs: nat)
    requires AgentStateKey(t, a) in entries && entries[AgentStateKey(t, a)].value.StateValue?
    ensures var r := HydrateSpec(codec, entries, t, a, nowSecs);
            var state := entries[AgentStateKey(t, a)].value.state;
            var last := if state.lastHydratedAt.None? then 0
                        else if state.lastHydratedAt.value.seconds < 0
                        then state.lastHydratedAt.value.seconds + 0x1_0000_0000_0000_0000
                        else state.lastHydratedAt.value.seconds;
            && (r.Err? && r.error.AgentBusy? <==> state.status == 2 && nowSecs < last + 300)
            && (r.Err? && r.error.AgentBusy? ==>
                  r.error == AgentBusy(t, a, if nowSecs < last then 0 else nowSecs - last))
  {
  }

  // Without an intact checkpoint: a missing memory record is reported as no checkpoint available, a
  // memory record of another version as a torn write with both versions, and a matching one is returned.
  lemma AnswersWithoutCheckpoint(codec: Codec, entries: Entries, t: string, a: string, nowSecs: nat)
    requires AgentStateKey(t, a) in entries && entries[AgentStateKey(t, a)].value.StateValue?
    requires !Busy(entries[AgentStateKey(t, a)].value.state, nowSecs)
    requires forall key :: !Intact(codec, entries, CheckpointPrefix(t, a), key)
    ensures var r := HydrateSpec(codec, entries, t, a, nowSecs);
            var state, tag := entries[AgentStateKey(t, a)].value.state, entries[AgentStateKey(t, a)].etag;
            var key := WorkingMemoryKey(t, a);
            && (r == Err(NoCheckpointAvailable(t, a)) <==> key !in entries)
            && (forall w: nat :: r == Err(TornWrite(a, state.workingMemoryVersion, w)) <==>
                  && key in entries && entries[key].value.MemoryValue?
                  && entries[key].value.memory.version == w && w != state.workingMemoryVersion)
            && (r.Ok? <==> key in entries && entries[key].value.MemoryValue?
                           && entries[key].value.memory.version == state.workingMemoryVersion)
            && (r.Ok? ==> r.value == HydrationResult(state, entries[key].value.memory, false, tag, Some(entries[key].etag)))
  {
    RecoversNewestIntact(codec, entries, t, a, WorkingMemoryRecord(0, None, 0, []));
  }

  // With one, exactly a matching memory record is returned as it stands; otherwise the memory of the
  // newest intact checkpoint takes its place, with the tag of the record found, if any.
  lemma AnswersWithCheckpoint(codec: Codec, entries: Entries, t: string, a: string, nowSecs: nat, newest: string)
    requires AgentStateKey(t, a) in entries && entries[AgentStateKey(t, a)].value.StateValue?
    requires !Busy(entries[AgentStateKey(t, a)].value.state, nowSecs)
    requires WorkingMemoryKey(t, a) in entries ==> entries[WorkingMemoryKey(t, a)].value.MemoryValue?
    requires Intact(codec, entries, CheckpointPrefix(t, a), newest)
    requires forall k :: Intact(codec, entries, CheckpointPrefix(t, a), k) ==> !LexLess(newest, k)
    ensures var r := HydrateSpec(codec, entries, t, a, nowSecs);
            var state, tag := entries[AgentStateKey(t, a)].value.state, entries[AgentStateKey(t, a)].etag;
            var key := WorkingMemoryKey(t, a);
            var whole := key in entries && entries[key].value.memory.version == state.workingMemoryVersion;
            && r.Ok? && (r.value.recoveredFromCheckpoint <==> !whole)
            && r.value.state == state && r.value.stateEtag == tag
            && r.value.workingMemory == (if whole then entries[key].value.memory
                                         else entries[newest].value.checkpoint.memorySnapshot)
            && r.value.memoryEtag == (if key in entries then Some(entries[key].etag) else None)
  {
    RecoversNewestIntact(codec, entries, t, a, entries[newest].value.checkpoint.memorySnapshot);
  }
}
