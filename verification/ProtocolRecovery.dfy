/** Recovery: what a checkpoint brings back, and how an agent gets out of a torn store. */
module ProtocolRecovery {
  import opened Outcomes
  import opened Records
  import opened Protocol
  import opened ProtocolInvariants
  import opened ProtocolSafety

  lemma NewestSoundIs(checkpoints: map<nat, Snapshot>, n: nat)
    requires IsNewestSound(checkpoints, n)
    ensures NewestSound(checkpoints) == Some(n)
  {
  }

  lemma RunCons(c: Config, a: Action, rest: seq<Action>)
    ensures Run(c, [a] + rest) == Run(Step(c, a), rest)
  {
    assert ([a] + rest)[1..] == rest;
  }

  /******* Runs of non-overlapping freezes *******/

  predicate Active(freeze: Freeze) {
    freeze.phase == Started || freeze.phase == MemoryWritten || freeze.phase == StateWritten
  }

  ghost predicate Quiet(c: Config) {
    forall f | f in c.freezes :: !Active(c.freezes[f])
  }

  // No freeze starts while another is under way, and the clock that numbers checkpoints never goes back.
  ghost predicate InTurn(c: Config, a: Action) {
    && (a.StartFreeze? ==> Quiet(c))
    && (a.WriteCheckpoint? ==> a.seqno >= c.clock)
  }

  ghost predicate OneAtATime(c: Config, actions: seq<Action>)
    decreases |actions|
  {
    actions != [] ==> InTurn(c, actions[0]) && OneAtATime(Step(c, actions[0]), actions[1..])
  }

  // The writer of the stored state record.
  ghost predicate Latest(c: Config, f: FreezeId) {
    c.store.state.Some? && c.store.state.value.etag in c.owner && c.owner[c.store.state.value.etag] == f
  }

  // Freezes take turns; the checkpoint numbered by the clock is the newest one and belongs to the
  // last freeze that wrote one, which is the last committed freeze if that one wrote any.
  ghost predicate Sequenced(c: Config) {
    && (forall f, g {:trigger Active(c.freezes[f]), Active(c.freezes[g])} |
          f in c.freezes && g in c.freezes :: Active(c.freezes[f]) && Active(c.freezes[g]) ==> f == g)
    && (forall f {:trigger Latest(c, f)} | f in c.freezes :: c.freezes[f].phase == StateWritten ==> Latest(c, f))
    && (forall f | f in c.freezes :: c.freezes[f].wroteCheckpoint && Latest(c, f) ==> c.lastCheckpoint == Some(f))
    && (forall f | f in c.freezes :: Active(c.freezes[f]) ==> !c.freezes[f].wroteCheckpoint)
    && (forall n :: n in c.store.checkpoints ==> n <= c.clock)
    && (c.lastCheckpoint.Some? ==>
          && c.lastCheckpoint.value in c.freezes
          && c.freezes[c.lastCheckpoint.value].wroteCheckpoint
          && c.clock in c.store.checkpoints
          && c.store.checkpoints[c.clock].state == c.freezes[c.lastCheckpoint.value].stateOut
          && c.store.checkpoints[c.clock].memory == c.freezes[c.lastCheckpoint.value].memoryOut)
  }

  lemma InitSequenced(c: Config)
    requires Init(c)
    ensures Sequenced(c)
  {
  }

  lemma WriteStateKeepsSequenced(c: Config, f: FreezeId)
    requires Ledger(c) && Sequenced(c)
    ensures Sequenced(StepWriteState(c, f))
  {
    var d := StepWriteState(c, f);
    if f in c.freezes && c.freezes[f].phase == MemoryWritten {
      assert Active(c.freezes[f]) && c.next !in c.owner;
      forall g | g in d.freezes && d.freezes[g].phase == StateWritten
        ensures Latest(d, g)
      {
        if g != f {
          assert Active(c.freezes[g]);
        }
      }
    }
  }

  // A step that only moves one freeze along, before its state write or out of the running.
  lemma AdvanceKeepsSequenced(c: Config, d: Config, f: FreezeId)
    requires Sequenced(c) && f in c.freezes && f in d.freezes
    requires d.freezes == c.freezes[f := d.freezes[f]]
    requires Active(d.freezes[f]) ==> Active(c.freezes[f])
    requires d.freezes[f].phase != StateWritten
    requires d.freezes[f].wroteCheckpoint == c.freezes[f].wroteCheckpoint
    requires d.freezes[f].stateOut == c.freezes[f].stateOut && d.freezes[f].memoryOut == c.freezes[f].memoryOut
    requires d.store.state == c.store.state && d.store.checkpoints == c.store.checkpoints
    requires d.clock == c.clock && d.lastCheckpoint == c.lastCheckpoint
    requires forall g :: Latest(d, g) == Latest(c, g)
    ensures Sequenced(d)
  {
  }

  lemma WriteMemoryKeepsSequenced(c: Config, f: FreezeId)
    requires Ledger(c) && Sequenced(c)
    ensures Sequenced(StepWriteMemory(c, f))
  {
    var d := StepWriteMemory(c, f);
    if f in c.freezes && c.freezes[f].phase == Started {
      assert c.store.state.Some? ==> c.store.state.value.etag < c.next;
      AdvanceKeepsSequenced(c, d, f);
    }
  }

  lemma WriteCheckpointKeepsSequenced(c: Config, f: FreezeId, seqno: nat)
    requires Ledger(c) && Sequenced(c) && seqno >= c.clock
    ensures Sequenced(StepWriteCheckpoint(c, f, seqno))
  {
    var d := StepWriteCheckpoint(c, f, seqno);
    if f in c.freezes && c.freezes[f].phase == StateWritten {
      assert Latest(c, f) && Active(c.freezes[f]);
      assert forall g | g in c.freezes :: Latest(d, g) == Latest(c, g);
    }
  }

  lemma PhaseKeepsSequenced(c: Config, f: FreezeId, from: set<Phase>, to: Phase)
    requires Sequenced(c) && (to == Finished || to == Crashed) && from <= {Started, MemoryWritten, StateWritten}
    ensures Sequenced(StepPhase(c, f, from, to))
  {
    if f in c.freezes && c.freezes[f].phase in from {
      AdvanceKeepsSequenced(c, StepPhase(c, f, from, to), f);
    }
  }

  lemma StartFreezeKeepsSequenced(c: Config, a: Action)
    requires Ledger(c) && Sequenced(c) && a.StartFreeze? && Quiet(c)
    ensures Sequenced(Step(c, a))
  {
  }

  // A step that touches neither freezes nor checkpoints.
  lemma OtherKeepsSequenced(c: Config, d: Config)
    requires Sequenced(c)
    requires d.freezes == c.freezes && d.owner == c.owner && d.clock == c.clock
    requires d.lastCheckpoint == c.lastCheckpoint
    requires d.store.state == c.store.state && d.store.checkpoints == c.store.checkpoints
    ensures Sequenced(d)
  {
    assert forall g | g in c.freezes :: Latest(d, g) == Latest(c, g);
  }

  lemma CorruptKeepsSequenced(c: Config, seqno: nat)
    requires Sequenced(c)
    ensures Sequenced(Step(c, CorruptCheckpoint(seqno)))
  {
    var d := Step(c, CorruptCheckpoint(seqno));
    assert forall g | g in c.freezes :: Latest(d, g) == Latest(c, g);
  }

  predicate Reads(a: Action) {
    a.ReadState? || a.ReadMemory? || a.Recover? || a.ExpireMemory? || a.OtherWrite?
  }

  lemma ReadKeepsSequenced(c: Config, a: Action)
    requires Sequenced(c) && Reads(a)
    ensures Sequenced(Step(c, a))
  {
    OtherKeepsSequenced(c, Step(c, a));
  }

  lemma StepKeepsSequenced(c: Config, a: Action)
    requires Ledger(c) && Sequenced(c) && InTurn(c, a)
    ensures Sequenced(Step(c, a))
  {
    if Reads(a) {
      ReadKeepsSequenced(c, a);
    } else {
      match a
      case StartFreeze(f, h, state, memory, snapshotAt, frozenAt) => StartFreezeKeepsSequenced(c, a);
      case WriteMemory(f) => WriteMemoryKeepsSequenced(c, f);
      case WriteState(f) => WriteStateKeepsSequenced(c, f);
      case WriteCheckpoint(f, seqno) => WriteCheckpointKeepsSequenced(c, f, seqno);
      case LoseCheckpoint(f) => PhaseKeepsSequenced(c, f, {StateWritten}, Finished);
      case Crash(f) => PhaseKeepsSequenced(c, f, {Started, MemoryWritten, StateWritten}, Crashed);
      case CorruptCheckpoint(seqno) => CorruptKeepsSequenced(c, seqno);
    }
  }

  lemma {:induction false} RunKeepsSequenced(c: Config, actions: seq<Action>)
    requires Ledger(c) && Sequenced(c) && OneAtATime(c, actions)
    ensures Sequenced(Run(c, actions))
    decreases |actions|
  {
    if actions != [] {
      StepKeepsLedger(c, actions[0]);
      StepKeepsSequenced(c, actions[0]);
      RunKeepsSequenced(Step(c, actions[0]), actions[1..]);
    }
  }

  // The checkpoint with the greatest number is that of the last freeze whose checkpoint write
  // succeeded, also when two freezes share one second and the later write replaces the earlier.
  lemma NewestCheckpointIsLast(start: Config, actions: seq<Action>)
    requires Init(start) && OneAtATime(start, actions)
    requires Run(start, actions).lastCheckpoint.Some?
    ensures var c := Run(start, actions);
            && c.lastCheckpoint.value in c.freezes
            && c.clock in c.store.checkpoints
            && (forall n :: n in c.store.checkpoints ==> n <= c.clock)
            && c.store.checkpoints[c.clock].state == c.freezes[c.lastCheckpoint.value].stateOut
            && c.store.checkpoints[c.clock].memory == c.freezes[c.lastCheckpoint.value].memoryOut
  {
    InitLedger(start);
    InitSequenced(start);
    RunKeepsSequenced(start, actions);
  }

  // The three steps of a hydration that finds its memory missing or torn.
  lemma RecoveringSteps(c: Config, h: HydrateId, nowSecs: nat, version: nat)
    requires c.store.state.Some? && !Busy(c.store.state.value.rec, nowSecs)
    requires c.store.memory.Some? ==>
               c.store.memory.value.rec.version != c.store.state.value.rec.workingMemoryVersion
    requires NewestSound(c.store.checkpoints).Some? && NewestSound(c.store.checkpoints).value in c.store.checkpoints
    requires h !in c.hydrates
    ensures var n := NewestSound(c.store.checkpoints).value;
            Run(c, [ReadState(h, nowSecs), ReadMemory(h), Recover(h, version)]) ==
            c.(hydrates := c.hydrates[h :=
              Hydrated(c.store.state.value, Committed(c), c.store.memory,
                       c.store.checkpoints[n].memory.(version := version), true)])
  {
    var c1 := StepReadState(c, h, nowSecs);
    var c2 := StepReadMemory(c1, h);
    var d := StepRecover(c2, h, version);
    var actions := [ReadState(h, nowSecs), ReadMemory(h), Recover(h, version)];
    assert actions[1..][1..] == [Recover(h, version)] && actions[1..][1..][1..] == [];
    assert Run(c, actions) == Run(c1, actions[1..]) == Run(c2, [Recover(h, version)]) == Run(d, []);
    var n := NewestSound(c.store.checkpoints).value;
    assert d.hydrates[h] == Hydrated(c.store.state.value, Committed(c), c.store.memory,
                                     c.store.checkpoints[n].memory.(version := version), true);
    assert d.hydrates == c.hydrates[h := d.hydrates[h]];
  }

  // After a crash between the two writes, or after the memory record expired, a hydration that
  // keeps the checkpoint's own version returns exactly the committed pair, if the last committed
  // freeze wrote its checkpoint and that checkpoint still verifies.
  lemma RecoveryRestoresCommitted(c: Config, start: Config, actions: seq<Action>, k: FreezeId,
                                  h: HydrateId, nowSecs: nat)
    requires Init(start) && OneAtATime(start, actions) && c == Run(start, actions)
    requires c.store.state.Some? && !Busy(c.store.state.value.rec, nowSecs)
    requires c.store.memory.Some? ==>
               c.store.memory.value.rec.version != c.store.state.value.rec.workingMemoryVersion
    requires Latest(c, k) && k in c.freezes && c.freezes[k].wroteCheckpoint
    requires c.clock in c.store.checkpoints && c.store.checkpoints[c.clock].sound
    requires h !in c.hydrates
    ensures var version := c.store.checkpoints[c.clock].memory.version;
            var d := Run(c, [ReadState(h, nowSecs), ReadMemory(h), Recover(h, version)]);
            && h in d.hydrates && d.hydrates[h].Hydrated? && d.hydrates[h].recovered
            && Committed(c) == Some(Commit(k, d.hydrates[h].state.rec, d.hydrates[h].memory))
            && d.hydrates[h].memory.version == d.hydrates[h].state.rec.workingMemoryVersion
  {
    InitLedger(start);
    InitSequenced(start);
    RunKeepsLedger(start, actions);
    RunKeepsSequenced(start, actions);
    assert FreezeOk(c, c.freezes[k]);
    NewestSoundIs(c.store.checkpoints, c.clock);
    RecoveringSteps(c, h, nowSecs, c.store.checkpoints[c.clock].memory.version);
  }

  // The same three steps when the versions agree: the third does nothing.
  lemma AcceptingSteps(c: Config, h: HydrateId, nowSecs: nat, version: nat)
    requires c.store.state.Some? && !Busy(c.store.state.value.rec, nowSecs) && c.store.memory.Some?
    requires c.store.memory.value.rec.version == c.store.state.value.rec.workingMemoryVersion
    requires h !in c.hydrates
    ensures Run(c, [ReadState(h, nowSecs), ReadMemory(h), Recover(h, version)]) ==
            c.(hydrates := c.hydrates[h :=
              Hydrated(c.store.state.value, Committed(c), c.store.memory, c.store.memory.value.rec, false)])
  {
    var c1 := StepReadState(c, h, nowSecs);
    var d := StepReadMemory(c1, h);
    var actions := [ReadState(h, nowSecs), ReadMemory(h), Recover(h, version)];
    assert actions[1..][1..] == [Recover(h, version)] && actions[1..][1..][1..] == [];
    assert Run(c, actions) == Run(c1, actions[1..]) == Run(d, [Recover(h, version)]) == Run(d, []);
    assert d.hydrates == c.hydrates[h := d.hydrates[h]];
  }

  // The two cases together, in runs whose freezes take turns and respect the version hypothesis:
  // whole, torn or without its memory, the store hydrates to the last committed pair.
  lemma HydrationReturnsCommitted(c: Config, start: Config, actions: seq<Action>, k: FreezeId,
                                  h: HydrateId, nowSecs: nat)
    requires Reachable(c, start, actions) && OneAtATime(start, actions)
    requires c.store.state.Some? && !Busy(c.store.state.value.rec, nowSecs)
    requires Latest(c, k) && k in c.freezes && c.freezes[k].wroteCheckpoint
    requires c.clock in c.store.checkpoints && c.store.checkpoints[c.clock].sound
    requires h !in c.hydrates
    ensures var version := c.store.checkpoints[c.clock].memory.version;
            var d := Run(c, [ReadState(h, nowSecs), ReadMemory(h), Recover(h, version)]);
            && h in d.hydrates && d.hydrates[h].Hydrated?
            && Committed(c) == Some(Commit(k, d.hydrates[h].state.rec, d.hydrates[h].memory))
  {
    var version := c.store.checkpoints[c.clock].memory.version;
    if c.store.memory.Some? && c.store.memory.value.rec.version == c.store.state.value.rec.workingMemoryVersion {
      ReachableInvariants(c, start, actions);
      SameVersionSameFreeze(c, c.store.state.value, c.store.memory.value);
      AcceptingSteps(c, h, nowSecs, version);
    } else {
      RecoveryRestoresCommitted(c, start, actions, k, h, nowSecs);
    }
  }

  /******* Self-healing *******/

  // One recovered hydration and one freeze, with nothing in between.
  function Healing(h: HydrateId, f: FreezeId, nowSecs: nat, version: nat, state: AgentStateRecord,
                   memory: WorkingMemoryRecord, snapshotAt: Timestamp, frozenAt: Timestamp): seq<Action> {
    [ReadState(h, nowSecs), ReadMemory(h), Recover(h, version),
     StartFreeze(f, h, state, memory, snapshotAt, frozenAt), WriteMemory(f), WriteState(f)]
  }

  lemma HealingSteps(c: Config, h: HydrateId, f: FreezeId, nowSecs: nat, version: nat, state: AgentStateRecord,
                     memory: WorkingMemoryRecord, snapshotAt: Timestamp, frozenAt: Timestamp)
    ensures Run(c, Healing(h, f, nowSecs, version, state, memory, snapshotAt, frozenAt)) ==
            var c3 := StepRecover(StepReadMemory(StepReadState(c, h, nowSecs), h), h, version);
            StepWriteState(StepWriteMemory(
              StepStartFreeze(c3, f, h, state, memory, snapshotAt, frozenAt), f), f)
  {
    var a := Healing(h, f, nowSecs, version, state, memory, snapshotAt, frozenAt);
    var c1 := Step(c, a[0]);
    var c2 := Step(c1, a[1]);
    var c3 := Step(c2, a[2]);
    var c4 := Step(c3, a[3]);
    var c5 := Step(c4, a[4]);
    assert a[1..][1..] == a[2..] && a[2..][1..] == a[3..] && a[3..][1..] == a[4..];
    assert a[4..][1..] == a[5..] && a[5..][1..] == [];
    assert Run(c, a) == Run(c1, a[1..]) == Run(c2, a[2..]) == Run(c3, a[3..]);
    assert Run(c3, a[3..]) == Run(c4, a[4..]) == Run(c5, a[5..]) == Run(Step(c5, a[5]), []);
  }

  // From any torn store with a verifying checkpoint, whatever version recovery hands back: the
  // freeze succeeds, the two records carry equal versions, and every freeze that was under way is
  // fenced off for good.
  lemma SelfHealing(c: Config, h: HydrateId, f: FreezeId, n: nat, nowSecs: nat, version: nat,
                    state: AgentStateRecord, memory: WorkingMemoryRecord,
                    snapshotAt: Timestamp, frozenAt: Timestamp)
    requires Ledger(c) && h !in c.hydrates && f !in c.freezes
    requires c.store.state.Some? && !Busy(c.store.state.value.rec, nowSecs)
    requires c.store.memory.Some?
    requires c.store.memory.value.rec.version != c.store.state.value.rec.workingMemoryVersion
    requires IsNewestSound(c.store.checkpoints, n)
    ensures var d := Run(c, Healing(h, f, nowSecs, version, state, memory, snapshotAt, frozenAt));
            && h in d.hydrates && d.hydrates[h].Hydrated?
            && d.hydrates[h].memory == c.store.checkpoints[n].memory.(version := version)
            && d.store.state == Some(Cell(FrozenState(state, memory.version + 1, frozenAt), c.next + 1))
            && d.store.memory == Some(Cell(FrozenMemory(memory, snapshotAt), c.next))
            && d.owner == c.owner[c.next := f][c.next + 1 := f]
            && forall g :: g in c.freezes && !c.freezes[g].wroteState ==> Fenced(d, g)
  {
    HealingSteps(c, h, f, nowSecs, version, state, memory, snapshotAt, frozenAt);
    NewestSoundIs(c.store.checkpoints, n);
    var c3 := StepRecover(StepReadMemory(StepReadState(c, h, nowSecs), h), h, version);
    var hydrated := Hydrated(c.store.state.value, Committed(c), c.store.memory,
                             c.store.checkpoints[n].memory.(version := version), true);
    assert c3 == c.(hydrates := c3.hydrates) && c3.hydrates[h] == hydrated;
    var c4 := StepStartFreeze(c3, f, h, state, memory, snapshotAt, frozenAt);
    assert MemoryTagMatches(c4, c4.freezes[f]);
    var c5 := StepWriteMemory(c4, f);
    assert StateTagMatches(c5, c5.freezes[f]);
    var d := StepWriteState(c5, f);
    forall g | g in c.freezes && !c.freezes[g].wroteState
      ensures Fenced(d, g)
    {
      assert FreezeOk(c, c.freezes[g]);
      assert d.freezes[g] == c.freezes[g];
    }
  }

  // The next hydration accepts the healed pair as it stands.
  lemma HealedHydrationDoesNotRecover(c: Config, h: HydrateId, nowSecs: nat, state: AgentStateRecord,
                                      memory: WorkingMemoryRecord, snapshotAt: Timestamp, frozenAt: Timestamp)
    requires c.store.state.Some? && c.store.state.value.rec == FrozenState(state, memory.version + 1, frozenAt)
    requires c.store.memory.Some? && c.store.memory.value.rec == FrozenMemory(memory, snapshotAt)
    requires h !in c.hydrates
    ensures var d := Run(c, [ReadState(h, nowSecs), ReadMemory(h)]);
            && h in d.hydrates && d.hydrates[h].Hydrated? && !d.hydrates[h].recovered
            && d.hydrates[h].state == c.store.state.value
            && d.hydrates[h].memory == c.store.memory.value.rec
  {
    RunCons(c, ReadState(h, nowSecs), [ReadMemory(h)]);
    RunCons(StepReadState(c, h, nowSecs), ReadMemory(h), []);
    assert [ReadState(h, nowSecs)] + [ReadMemory(h)] == [ReadState(h, nowSecs), ReadMemory(h)];
  }
}
