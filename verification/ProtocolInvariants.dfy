/** What every step of the protocol keeps.  `Ledger` holds in every run; `VersionOrder` needs the
    version hypothesis.  */
module ProtocolInvariants {
  import opened Outcomes
  import opened Records
  import opened Protocol

  /******* Provenance *******/

  ghost predicate OwnsState(c: Config, cell: StateCell) {
    && cell.etag in c.owner && c.owner[cell.etag] in c.freezes
    && var freeze := c.freezes[c.owner[cell.etag]];
       freeze.wroteState && freeze.stateOut == cell.rec
  }

  ghost predicate OwnsMemory(c: Config, cell: MemoryCell) {
    && cell.etag in c.owner && c.owner[cell.etag] in c.freezes
    && var freeze := c.freezes[c.owner[cell.etag]];
       freeze.wroteMemory && freeze.memoryOut == cell.rec
  }

  // The committed pair belonging to a state record.
  ghost function CommitOf(c: Config, cell: StateCell): Commit
    requires OwnsState(c, cell)
  {
    var id := c.owner[cell.etag];
    Commit(id, cell.rec, c.freezes[id].memoryOut)
  }

  predicate Pending(freeze: Freeze) {
    freeze.phase == Started || freeze.phase == MemoryWritten
  }

  // What a freeze's own fields always satisfy.
  predicate Wellformed(freeze: Freeze) {
    && freeze.stateOut.workingMemoryVersion == freeze.memoryOut.version
    && (freeze.wroteState ==> freeze.wroteMemory)
    && (freeze.phase == Started ==> !freeze.wroteMemory)
    && (freeze.phase == MemoryWritten ==> freeze.wroteMemory && !freeze.wroteState)
    && (freeze.phase == StateWritten ==> freeze.wroteState)
  }

  // The tags of a freeze were handed out by writes of earlier freezes, and `basis` is the pair
  // committed by the writer of the state record it read.
  ghost predicate Grounded(c: Config, freeze: Freeze) {
    && freeze.stateTag in c.owner
    && freeze.basis.Some?
    && var basis := freeze.basis.value;
       && basis.id == c.owner[freeze.stateTag] && basis.id in c.freezes
       && c.freezes[basis.id].wroteState
       && basis.state == c.freezes[basis.id].stateOut
       && basis.memory == c.freezes[basis.id].memoryOut
       && (freeze.memoryTag.Some? ==>
             && freeze.memoryTag.value in c.owner && c.owner[freeze.memoryTag.value] in c.freezes
             && c.freezes[c.owner[freeze.memoryTag.value]].wroteMemory)
  }

  ghost predicate FreezeOk(c: Config, freeze: Freeze) {
    Wellformed(freeze) && (Pending(freeze) ==> Grounded(c, freeze))
  }

  ghost predicate HydrateOk(c: Config, hydrate: Hydrate) {
    match hydrate
    case Rejected(_) => true
    case StateRead(state, at) =>
      OwnsState(c, state) && at == Some(CommitOf(c, state))
    case Inconsistent(state, at, found) =>
      OwnsState(c, state) && at == Some(CommitOf(c, state)) && (found.Some? ==> OwnsMemory(c, found.value))
    case Hydrated(state, at, found, memory, recovered) =>
      && OwnsState(c, state) && at == Some(CommitOf(c, state))
      && (found.Some? ==> OwnsMemory(c, found.value))
      && (!recovered ==> found.Some? && memory == found.value.rec
                         && memory.version == state.rec.workingMemoryVersion)
  }

  ghost predicate Ledger(c: Config) {
    && (forall e :: e in c.owner ==> e < c.next && c.owner[e] in c.freezes)
    && (c.store.state.Some? ==> OwnsState(c, c.store.state.value))
    && (c.store.memory.Some? ==> OwnsMemory(c, c.store.memory.value))
    && (forall f {:trigger FreezeOk(c, c.freezes[f])} :: f in c.freezes ==> FreezeOk(c, c.freezes[f]))
    && (forall h {:trigger HydrateOk(c, c.hydrates[h])} :: h in c.hydrates ==> HydrateOk(c, c.hydrates[h]))
  }

  /******* Ledger is kept by every step *******/

  // History only grows: what was written stays written, by the same freeze and with the same content.
  ghost predicate Grows(c: Config, d: Config) {
    && c.next <= d.next
    && (forall e :: e in c.owner ==> e in d.owner && d.owner[e] == c.owner[e])
    && (forall f :: f in c.freezes ==>
          && f in d.freezes
          && d.freezes[f].stateOut == c.freezes[f].stateOut
          && d.freezes[f].memoryOut == c.freezes[f].memoryOut
          && d.freezes[f].stateTag == c.freezes[f].stateTag
          && d.freezes[f].memoryTag == c.freezes[f].memoryTag
          && d.freezes[f].basis == c.freezes[f].basis
          && (c.freezes[f].wroteMemory ==> d.freezes[f].wroteMemory)
          && (c.freezes[f].wroteState ==> d.freezes[f].wroteState))
  }

  lemma GrowsKeepsHydrate(c: Config, d: Config, hydrate: Hydrate)
    requires Grows(c, d) && HydrateOk(c, hydrate)
    ensures HydrateOk(d, hydrate)
  {
  }

  lemma GrowsKeepsGrounded(c: Config, d: Config, freeze: Freeze)
    requires Grows(c, d) && Grounded(c, freeze)
    ensures Grounded(d, freeze)
  {
  }

  // A step that touches nothing but one hydration.
  lemma HydrateStep(c: Config, d: Config, h: HydrateId, outcome: Hydrate)
    requires Ledger(c) && HydrateOk(c, outcome)
    requires d == c.(hydrates := c.hydrates[h := outcome])
    ensures Ledger(d) && Grows(c, d)
  {
    forall k | k in d.hydrates
      ensures HydrateOk(d, d.hydrates[k])
    {
      GrowsKeepsHydrate(c, d, d.hydrates[k]);
    }
    forall f | f in d.freezes
      ensures FreezeOk(d, d.freezes[f])
    {
      assert FreezeOk(c, c.freezes[f]);
    }
  }

  // Advancing one freeze and giving it the fresh tag forgets nothing.
  lemma AdvanceGrows(c: Config, d: Config, f: FreezeId)
    requires Ledger(c) && f in c.freezes && f in d.freezes
    requires d.freezes == c.freezes[f := d.freezes[f]]
    requires d.freezes[f] == c.freezes[f].(phase := d.freezes[f].phase,
                                           wroteMemory := d.freezes[f].wroteMemory,
                                           wroteState := d.freezes[f].wroteState,
                                           wroteCheckpoint := d.freezes[f].wroteCheckpoint)
    requires c.freezes[f].wroteMemory ==> d.freezes[f].wroteMemory
    requires c.freezes[f].wroteState ==> d.freezes[f].wroteState
    requires d.owner == c.owner || d.owner == c.owner[c.next := f]
    requires c.next <= d.next
    ensures Grows(c, d)
  {
  }

  // A step that adds or advances one freeze, given that nothing already written is forgotten.
  lemma FreezeStep(c: Config, d: Config, f: FreezeId)
    requires Ledger(c) && Grows(c, d)
    requires f in d.freezes && d.freezes == c.freezes[f := d.freezes[f]] && FreezeOk(d, d.freezes[f])
    requires d.hydrates == c.hydrates
    requires forall e :: e in d.owner ==> e < d.next && (e in c.owner || d.owner[e] == f)
    requires d.store.state == c.store.state || (d.store.state.Some? && OwnsState(d, d.store.state.value))
    requires d.store.memory == c.store.memory || (d.store.memory.Some? && OwnsMemory(d, d.store.memory.value))
    ensures Ledger(d)
  {
    forall k | k in d.hydrates
      ensures HydrateOk(d, d.hydrates[k])
    {
      GrowsKeepsHydrate(c, d, d.hydrates[k]);
    }
    forall g | g in d.freezes
      ensures FreezeOk(d, d.freezes[g])
    {
      if g != f {
        assert FreezeOk(c, c.freezes[g]);
        if Pending(c.freezes[g]) { GrowsKeepsGrounded(c, d, c.freezes[g]); }
      }
    }
  }

  lemma StartFreezeStep(c: Config, a: Action)
    requires Ledger(c) && a.StartFreeze?
    ensures Ledger(Step(c, a)) && Grows(c, Step(c, a))
  {
    var d := Step(c, a);
    if d != c {
      assert HydrateOk(c, c.hydrates[a.h]);
      FreezeStep(c, d, a.f);
    }
  }

  lemma WriteMemoryStep(c: Config, f: FreezeId)
    requires Ledger(c)
    ensures Ledger(StepWriteMemory(c, f)) && Grows(c, StepWriteMemory(c, f))
  {
    var d := StepWriteMemory(c, f);
    if f in c.freezes && c.freezes[f].phase == Started {
      assert FreezeOk(c, c.freezes[f]);
      AdvanceGrows(c, d, f);
      FreezeStep(c, d, f);
    }
  }

  lemma WriteStateStep(c: Config, f: FreezeId)
    requires Ledger(c)
    ensures Ledger(StepWriteState(c, f)) && Grows(c, StepWriteState(c, f))
  {
    var d := StepWriteState(c, f);
    if f in c.freezes && c.freezes[f].phase == MemoryWritten {
      assert FreezeOk(c, c.freezes[f]);
      AdvanceGrows(c, d, f);
      FreezeStep(c, d, f);
    }
  }

  lemma WriteCheckpointStep(c: Config, f: FreezeId, seqno: nat)
    requires Ledger(c)
    ensures Ledger(StepWriteCheckpoint(c, f, seqno)) && Grows(c, StepWriteCheckpoint(c, f, seqno))
  {
    var d := StepWriteCheckpoint(c, f, seqno);
    if f in c.freezes && c.freezes[f].phase == StateWritten {
      assert FreezeOk(c, c.freezes[f]);
      AdvanceGrows(c, d, f);
      FreezeStep(c, d, f);
    }
  }

  lemma PhaseStep(c: Config, f: FreezeId, from: set<Phase>, to: Phase)
    requires Ledger(c) && (to == Finished || to == Crashed)
    ensures Ledger(StepPhase(c, f, from, to)) && Grows(c, StepPhase(c, f, from, to))
  {
    var d := StepPhase(c, f, from, to);
    if f in c.freezes && c.freezes[f].phase in from {
      assert FreezeOk(c, c.freezes[f]);
      AdvanceGrows(c, d, f);
      FreezeStep(c, d, f);
    }
  }

  // Steps of the environment change neither hydrations, freezes nor provenance.
  lemma EnvironmentStep(c: Config, d: Config)
    requires Ledger(c) && c.next <= d.next
    requires d.hydrates == c.hydrates && d.freezes == c.freezes && d.owner == c.owner
    requires d.store.state == c.store.state
    requires d.store.memory == c.store.memory || d.store.memory.None?
    ensures Ledger(d) && Grows(c, d)
  {
    forall k | k in d.hydrates
      ensures HydrateOk(d, d.hydrates[k])
    {
      GrowsKeepsHydrate(c, d, d.hydrates[k]);
    }
    forall g | g in d.freezes
      ensures FreezeOk(d, d.freezes[g])
    {
      assert FreezeOk(c, c.freezes[g]);
    }
  }

  lemma StepKeepsLedger(c: Config, a: Action)
    requires Ledger(c)
    ensures Ledger(Step(c, a)) && Grows(c, Step(c, a))
  {
    var d := Step(c, a);
    match a
    case ReadState(h, _) =>
      if h !in c.hydrates { HydrateStep(c, d, h, d.hydrates[h]); }
    case ReadMemory(h) =>
      if h in c.hydrates && c.hydrates[h].StateRead? {
        assert HydrateOk(c, c.hydrates[h]);
        HydrateStep(c, d, h, d.hydrates[h]);
      }
    case Recover(h, _) =>
      if h in c.hydrates && c.hydrates[h].Inconsistent? {
        assert HydrateOk(c, c.hydrates[h]);
        HydrateStep(c, d, h, d.hydrates[h]);
      }
    case StartFreeze(f, h, state, memory, snapshotAt, frozenAt) => StartFreezeStep(c, a);
    case WriteMemory(f) => WriteMemoryStep(c, f);
    case WriteState(f) => WriteStateStep(c, f);
    case WriteCheckpoint(f, seqno) => WriteCheckpointStep(c, f, seqno);
    case LoseCheckpoint(f) => PhaseStep(c, f, {StateWritten}, Finished);
    case Crash(f) => PhaseStep(c, f, {Started, MemoryWritten, StateWritten}, Crashed);
    case ExpireMemory => EnvironmentStep(c, d);
    case CorruptCheckpoint(_) => EnvironmentStep(c, d);
    case OtherWrite => EnvironmentStep(c, d);
  }

  lemma {:induction false} RunKeepsLedger(c: Config, actions: seq<Action>)
    requires Ledger(c)
    ensures Ledger(Run(c, actions)) && Grows(c, Run(c, actions))
    decreases |actions|
  {
    if actions != [] {
      StepKeepsLedger(c, actions[0]);
      RunKeepsLedger(Step(c, actions[0]), actions[1..]);
    }
  }

  lemma InitLedger(c: Config)
    requires Init(c)
    ensures Ledger(c)
  {
  }

  /******* Versions *******/

  // The version a freeze will write is above that of the record it means to replace.
  ghost predicate Outdates(c: Config, freeze: Freeze) {
    freeze.memoryTag.Some? && freeze.memoryTag.value in c.owner && c.owner[freeze.memoryTag.value] in c.freezes ==>
      freeze.memoryOut.version > c.freezes[c.owner[freeze.memoryTag.value]].memoryOut.version
  }

  // Every memory write made so far has its own version, the stored one has the greatest, and a
  // freeze that has not written yet holds a version above that of the record it means to replace.
  ghost predicate VersionOrder(c: Config) {
    && (forall f, g {:trigger c.freezes[f].wroteMemory, c.freezes[g].wroteMemory} |
          f in c.freezes && g in c.freezes && f != g ::
          c.freezes[f].wroteMemory && c.freezes[g].wroteMemory ==>
            c.freezes[f].memoryOut.version != c.freezes[g].memoryOut.version)
    && (c.store.memory.Some? ==> forall f {:trigger c.freezes[f].wroteMemory} | f in c.freezes ::
          c.freezes[f].wroteMemory ==>
            c.freezes[f].memoryOut.version <= c.store.memory.value.rec.version)
    && (forall f {:trigger Outdates(c, c.freezes[f])} | f in c.freezes ::
          c.freezes[f].phase == Started ==> Outdates(c, c.freezes[f]))
  }

  lemma InitVersionOrder(c: Config)
    requires Init(c)
    ensures VersionOrder(c)
  {
  }

  lemma StartFreezeKeepsVersions(c: Config, a: Action)
    requires Ledger(c) && VersionOrder(c) && a.StartFreeze? && RespectsVersion(c, a)
    ensures VersionOrder(Step(c, a))
  {
    var d := Step(c, a);
    if d != c {
      assert HydrateOk(c, c.hydrates[a.h]);
      forall g | g in d.freezes && d.freezes[g].phase == Started
        ensures Outdates(d, d.freezes[g])
      {
        if g != a.f {
          assert Outdates(c, c.freezes[g]) && FreezeOk(c, c.freezes[g]);
        }
      }
    }
  }

  // A memory write that its tag lets through carries a version above all versions written before:
  // the record being replaced is the one the tag was read from, and it had the greatest.
  lemma ReplacementIsNewest(c: Config, f: FreezeId)
    requires Ledger(c) && VersionOrder(c)
    requires f in c.freezes && c.freezes[f].phase == Started && MemoryTagMatches(c, c.freezes[f])
    ensures forall g | g in c.freezes && c.freezes[g].wroteMemory ::
              c.freezes[g].memoryOut.version < c.freezes[f].memoryOut.version
  {
    assert FreezeOk(c, c.freezes[f]) && Outdates(c, c.freezes[f]);
    assert OwnsMemory(c, c.store.memory.value);
  }

  lemma ReplaceMemoryKeepsVersions(c: Config, d: Config, f: FreezeId)
    requires VersionOrder(c)
    requires f in c.freezes && c.freezes[f].phase == Started
    requires forall g | g in c.freezes && c.freezes[g].wroteMemory ::
               c.freezes[g].memoryOut.version < c.freezes[f].memoryOut.version
    requires forall g | g in c.freezes && c.freezes[g].phase == Started :: Outdates(d, c.freezes[g])
    requires d.freezes == c.freezes[f := c.freezes[f].(phase := MemoryWritten, wroteMemory := true)]
    requires d.store.memory.Some? && d.store.memory.value.rec == c.freezes[f].memoryOut
    ensures VersionOrder(d)
  {
  }

  // A tag keeps the record it was read from, so a freeze goes on outdating it.
  lemma GrowsKeepsOutdates(c: Config, d: Config, g: FreezeId)
    requires Ledger(c) && VersionOrder(c) && Grows(c, d)
    requires g in c.freezes && c.freezes[g].phase == Started
    ensures Outdates(d, c.freezes[g])
  {
    assert Outdates(c, c.freezes[g]) && FreezeOk(c, c.freezes[g]);
  }

  // A step that only moves one freeze along, without writing memory.
  lemma AdvanceKeepsVersions(c: Config, d: Config, f: FreezeId)
    requires Ledger(c) && VersionOrder(c) && Grows(c, d)
    requires f in c.freezes && f in d.freezes && d.freezes == c.freezes[f := d.freezes[f]]
    requires d.freezes[f].phase != Started && d.freezes[f].wroteMemory == c.freezes[f].wroteMemory
    requires d.store.memory == c.store.memory
    ensures VersionOrder(d)
  {
    forall g | g in d.freezes && d.freezes[g].phase == Started
      ensures Outdates(d, d.freezes[g])
    {
      GrowsKeepsOutdates(c, d, g);
    }
  }

  lemma WriteMemoryKeepsVersions(c: Config, f: FreezeId)
    requires Ledger(c) && VersionOrder(c)
    ensures VersionOrder(StepWriteMemory(c, f))
  {
    var d := StepWriteMemory(c, f);
    WriteMemoryStep(c, f);
    if f in c.freezes && c.freezes[f].phase == Started {
      if MemoryTagMatches(c, c.freezes[f]) {
        ReplacementIsNewest(c, f);
        forall g | g in c.freezes && c.freezes[g].phase == Started
          ensures Outdates(d, c.freezes[g])
        {
          GrowsKeepsOutdates(c, d, g);
        }
        ReplaceMemoryKeepsVersions(c, d, f);
      } else {
        AdvanceKeepsVersions(c, d, f);
      }
    }
  }

  lemma WriteStateKeepsVersions(c: Config, f: FreezeId)
    requires Ledger(c) && VersionOrder(c)
    ensures VersionOrder(StepWriteState(c, f))
  {
    WriteStateStep(c, f);
    if f in c.freezes && c.freezes[f].phase == MemoryWritten {
      AdvanceKeepsVersions(c, StepWriteState(c, f), f);
    }
  }

  lemma WriteCheckpointKeepsVersions(c: Config, f: FreezeId, seqno: nat)
    requires Ledger(c) && VersionOrder(c)
    ensures VersionOrder(StepWriteCheckpoint(c, f, seqno))
  {
    WriteCheckpointStep(c, f, seqno);
    if f in c.freezes && c.freezes[f].phase == StateWritten {
      AdvanceKeepsVersions(c, StepWriteCheckpoint(c, f, seqno), f);
    }
  }

  lemma PhaseKeepsVersions(c: Config, f: FreezeId, from: set<Phase>, to: Phase)
    requires Ledger(c) && VersionOrder(c) && (to == Finished || to == Crashed)
    ensures VersionOrder(StepPhase(c, f, from, to))
  {
    PhaseStep(c, f, from, to);
    if f in c.freezes && c.freezes[f].phase in from {
      AdvanceKeepsVersions(c, StepPhase(c, f, from, to), f);
    }
  }

  // A step that touches no freeze and no provenance.
  lemma SameFreezes(c: Config, d: Config)
    requires VersionOrder(c) && d.freezes == c.freezes && d.owner == c.owner
    requires d.store.memory == c.store.memory || d.store.memory.None?
    ensures VersionOrder(d)
  {
    forall g | g in d.freezes && d.freezes[g].phase == Started
      ensures Outdates(d, d.freezes[g])
    {
      assert Outdates(c, c.freezes[g]);
    }
  }

  lemma StepKeepsVersionOrder(c: Config, a: Action)
    requires Ledger(c) && VersionOrder(c) && RespectsVersion(c, a)
    ensures VersionOrder(Step(c, a))
  {
    match a
    case StartFreeze(f, h, state, memory, snapshotAt, frozenAt) => StartFreezeKeepsVersions(c, a);
    case WriteMemory(f) => WriteMemoryKeepsVersions(c, f);
    case WriteState(f) => WriteStateKeepsVersions(c, f);
    case WriteCheckpoint(f, seqno) => WriteCheckpointKeepsVersions(c, f, seqno);
    case LoseCheckpoint(f) => PhaseKeepsVersions(c, f, {StateWritten}, Finished);
    case Crash(f) => PhaseKeepsVersions(c, f, {Started, MemoryWritten, StateWritten}, Crashed);
    case ReadState(h, nowSecs) => SameFreezes(c, StepReadState(c, h, nowSecs));
    case ReadMemory(h) => SameFreezes(c, StepReadMemory(c, h));
    case Recover(h, version) => SameFreezes(c, StepRecover(c, h, version));
    case ExpireMemory => SameFreezes(c, Step(c, a));
    case CorruptCheckpoint(_) => SameFreezes(c, Step(c, a));
    case OtherWrite => SameFreezes(c, Step(c, a));
  }

  lemma {:induction false} RunKeepsVersionOrder(c: Config, actions: seq<Action>)
    requires Ledger(c) && VersionOrder(c) && VersionsRespected(c, actions)
    ensures VersionOrder(Run(c, actions))
    decreases |actions|
  {
    if actions != [] {
      StepKeepsLedger(c, actions[0]);
      StepKeepsVersionOrder(c, actions[0]);
      RunKeepsVersionOrder(Step(c, actions[0]), actions[1..]);
    }
  }
}
