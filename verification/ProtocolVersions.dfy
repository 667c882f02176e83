/** How low a version recovery may hand back: exactly not below the version of the record found.

    A recovery that keeps that bound makes every run safe; for every shortfall there is a run in
    which the version check accepts two records written by different freezes.  */
module ProtocolVersions {
  import opened Outcomes
  import opened Records
  import opened Protocol
  import opened ProtocolInvariants
  import opened ProtocolSafety
  import opened ProtocolRecovery

  /******* Enough: never below what was found *******/

  // Callers freeze the version they were handed, and recovery hands back at least the version found.
  predicate Lifted(c: Config, a: Action) {
    && (a.StartFreeze? && a.h in c.hydrates && c.hydrates[a.h].Hydrated? ==>
          a.memory.version == c.hydrates[a.h].memory.version)
    && (a.Recover? && a.h in c.hydrates && c.hydrates[a.h].Inconsistent? && c.hydrates[a.h].found.Some? ==>
          a.version >= c.hydrates[a.h].found.value.rec.version)
  }

  ghost predicate AllLifted(c: Config, actions: seq<Action>)
    decreases |actions|
  {
    actions != [] ==> Lifted(c, actions[0]) && AllLifted(Step(c, actions[0]), actions[1..])
  }

  ghost predicate HandsBackEnough(c: Config) {
    forall h :: h in c.hydrates && c.hydrates[h].Hydrated? && c.hydrates[h].found.Some? ==>
      c.hydrates[h].memory.version >= c.hydrates[h].found.value.rec.version
  }

  lemma StepHandsBackEnough(c: Config, a: Action)
    requires HandsBackEnough(c) && Lifted(c, a)
    ensures HandsBackEnough(Step(c, a))
  {
  }

  lemma {:induction false} LiftedRespectsVersions(c: Config, actions: seq<Action>)
    requires HandsBackEnough(c) && AllLifted(c, actions)
    ensures VersionsRespected(c, actions)
    decreases |actions|
  {
    if actions != [] {
      StepHandsBackEnough(c, actions[0]);
      LiftedRespectsVersions(Step(c, actions[0]), actions[1..]);
    }
  }

  // So under such a recovery no hydration ever accepts records of two freezes.
  lemma LiftedRecoveryIsSafe(c: Config, start: Config, actions: seq<Action>, h: HydrateId)
    requires Init(start) && AllLifted(start, actions) && c == Run(start, actions)
    requires h in c.hydrates && c.hydrates[h].Hydrated? && !c.hydrates[h].recovered
    ensures !Mixed(c, h)
  {
    LiftedRespectsVersions(start, actions);
    ReachableInvariants(c, start, actions);
    assert HydrateOk(c, c.hydrates[h]);
    SameVersionSameFreeze(c, c.hydrates[h].state, c.hydrates[h].found.value);
  }

  // Hydration `h` took the store at its word and returned records written by two different freezes.
  predicate Mixed(c: Config, h: HydrateId) {
    && h in c.hydrates && c.hydrates[h].Hydrated? && !c.hydrates[h].recovered
    && c.hydrates[h].found.Some?
    && c.hydrates[h].state.etag in c.owner && c.hydrates[h].found.value.etag in c.owner
    && c.owner[c.hydrates[h].state.etag] != c.owner[c.hydrates[h].found.value.etag]
  }

  /******* Building runs *******/

  const T0: Timestamp := Timestamp(0, 0)

  function StateAt(version: nat): AgentStateRecord {
    AgentStateRecord(STATUS_FROZEN, None, None, "", [], version, LATEST_SCHEMA_VERSION, [])
  }

  function MemoryAt(version: nat): WorkingMemoryRecord {
    WorkingMemoryRecord(version, None, LATEST_SCHEMA_VERSION, [])
  }

  // An agent created with the given version, and with a checkpoint.
  function Created(version: nat): Config {
    Config(
      AgentStore(Some(Cell(StateAt(version), 0)), Some(Cell(MemoryAt(version), 1)),
                 map[0 := Snapshot(StateAt(version), MemoryAt(version), true)]),
      2, 0, map[],
      map[0 := Freeze(Finished, 0, None, None, StateAt(version), MemoryAt(version), true, true, true)],
      map[0 := 0, 1 := 0], Some(0))
  }

  // Hydrate as `id`, then freeze as `id` up to and including the memory write.
  function Session(id: nat, torn: bool, given: nat, input: nat): seq<Action> {
    [ReadState(id, 0), ReadMemory(id)] +
    (if torn then [Recover(id, given)] else []) +
    [StartFreeze(id, id, StateAt(input), MemoryAt(input), T0, T0), WriteMemory(id)]
  }

  function FreezeOf(c: Config, input: nat, phase: Phase, wrote: bool): Freeze
    requires c.store.state.Some? && c.store.memory.Some?
  {
    Freeze(phase, c.store.state.value.etag, Some(c.store.memory.value.etag), Committed(c),
           FrozenState(StateAt(input), input + 1, T0), FrozenMemory(MemoryAt(input), T0),
           wrote, false, false)
  }

  // The configuration a session leads to.
  function AfterSession(c: Config, id: nat, torn: bool, memory: WorkingMemoryRecord, input: nat): Config
    requires c.store.state.Some? && c.store.memory.Some?
  {
    c.(store := c.store.(memory := Some(Cell(FrozenMemory(MemoryAt(input), T0), c.next))),
       next := c.next + 1,
       hydrates := c.hydrates[id :=
         Hydrated(c.store.state.value, Committed(c), c.store.memory, memory, torn)],
       freezes := c.freezes[id := FreezeOf(c, input, MemoryWritten, true)],
       owner := c.owner[c.next := id])
  }

  predicate CanStart(c: Config, id: nat) {
    && id !in c.hydrates && id !in c.freezes
    && c.store.state.Some? && c.store.state.value.rec.status == STATUS_FROZEN && c.store.memory.Some?
  }

  lemma WholeSession(c: Config, id: nat, input: nat)
    requires CanStart(c, id)
    requires c.store.memory.value.rec.version == c.store.state.value.rec.workingMemoryVersion
    ensures Run(c, Session(id, false, 0, input)) ==
            AfterSession(c, id, false, c.store.memory.value.rec, input)
    ensures Except(c, Session(id, false, 0, input), id)
    ensures input >= c.store.memory.value.rec.version ==> VersionsRespected(c, Session(id, false, 0, input))
    ensures Quiet(c) ==> OneAtATime(c, Session(id, false, 0, input))
    ensures input == c.store.memory.value.rec.version ==> AsSpecified(c, Session(id, false, 0, input))
  {
    var a := Session(id, false, 0, input);
    var c1 := StepReadState(c, id, 0);
    var c2 := StepReadMemory(c1, id);
    var hydrated := Hydrated(c.store.state.value, Committed(c), c.store.memory, c.store.memory.value.rec, false);
    assert c2 == c.(hydrates := c.hydrates[id := hydrated]);
    FinishSession(c, c2, id, hydrated, input);
    assert a[1..][1..] == Tail(id, input);
    assert Run(c, a) == Run(c1, a[1..]) == Run(c2, Tail(id, input));
  }

  lemma TornSession(c: Config, id: nat, n: nat, given: nat, input: nat)
    requires CanStart(c, id)
    requires c.store.memory.value.rec.version != c.store.state.value.rec.workingMemoryVersion
    requires IsNewestSound(c.store.checkpoints, n)
    ensures Run(c, Session(id, true, given, input)) ==
            AfterSession(c, id, true, c.store.checkpoints[n].memory.(version := given), input)
    ensures Except(c, Session(id, true, given, input), id)
    ensures input >= c.store.memory.value.rec.version ==> VersionsRespected(c, Session(id, true, given, input))
    ensures Quiet(c) ==> OneAtATime(c, Session(id, true, given, input))
    ensures input == given == c.store.checkpoints[n].memory.version ==>
              AsSpecified(c, Session(id, true, given, input))
  {
    NewestSoundIs(c.store.checkpoints, n);
    var a := Session(id, true, given, input);
    var c1 := StepReadState(c, id, 0);
    var c2 := StepReadMemory(c1, id);
    var c3 := StepRecover(c2, id, given);
    var hydrated := Hydrated(c.store.state.value, Committed(c), c.store.memory,
                             c.store.checkpoints[n].memory.(version := given), true);
    assert c3 == c.(hydrates := c.hydrates[id := hydrated]);
    FinishSession(c, c3, id, hydrated, input);
    assert a[1..][1..] == [Recover(id, given)] + Tail(id, input);
    assert ([Recover(id, given)] + Tail(id, input))[1..] == Tail(id, input);
    assert Run(c, a) == Run(c1, a[1..]) == Run(c2, a[1..][1..]) == Run(c3, Tail(id, input));
  }

  function Tail(id: nat, input: nat): seq<Action> {
    [StartFreeze(id, id, StateAt(input), MemoryAt(input), T0, T0), WriteMemory(id)]
  }

  lemma FinishSession(c: Config, d: Config, id: nat, hydrated: Hydrate, input: nat)
    requires CanStart(c, id) && d == c.(hydrates := c.hydrates[id := hydrated])
    requires hydrated.Hydrated? && hydrated.state == c.store.state.value && hydrated.at == Committed(c)
             && hydrated.found == c.store.memory
    ensures Run(d, Tail(id, input)) == AfterSession(c, id, hydrated.recovered, hydrated.memory, input)
    ensures Except(d, Tail(id, input), id)
    ensures input >= c.store.memory.value.rec.version ==> VersionsRespected(d, Tail(id, input))
    ensures Quiet(c) ==> OneAtATime(d, Tail(id, input))
    ensures input == hydrated.memory.version ==> AsSpecified(d, Tail(id, input))
  {
    var a := Tail(id, input);
    var e := Step(d, a[0]);
    assert a[1..] == [WriteMemory(id)] && a[1..][1..] == [];
    assert e.freezes[id] == FreezeOf(c, input, Started, false);
    var e2 := StepWriteMemory(e, id);
    assert e2 == AfterSession(c, id, hydrated.recovered, hydrated.memory, input);
    assert Run(d, a) == Run(e, a[1..]) == Run(e2, []);
  }

  /******* Needed: every shortfall mixes *******/

  // The version hypothesis holds at every freeze but `f`.
  ghost predicate Except(c: Config, actions: seq<Action>, f: FreezeId)
    decreases |actions|
  {
    actions != [] ==>
      && (RespectsVersion(c, actions[0]) || (actions[0].StartFreeze? && actions[0].f == f))
      && Except(Step(c, actions[0]), actions[1..], f)
  }

  // Recovery hands back the checkpoint unchanged, and callers freeze the version they were handed.
  ghost predicate SpecifiedStep(c: Config, a: Action) {
    && (a.StartFreeze? && a.h in c.hydrates && c.hydrates[a.h].Hydrated? ==>
          a.memory.version == c.hydrates[a.h].memory.version)
    && (a.Recover? ==> match NewestSound(c.store.checkpoints)
                       case None => true
                       case Some(n) => n in c.store.checkpoints ==> a.version == c.store.checkpoints[n].memory.version)
  }

  ghost predicate AsSpecified(c: Config, actions: seq<Action>)
    decreases |actions|
  {
    actions != [] ==> SpecifiedStep(c, actions[0]) && AsSpecified(Step(c, actions[0]), actions[1..])
  }

  lemma {:induction false} Concat(c: Config, first: seq<Action>, second: seq<Action>, f: FreezeId)
    ensures Run(c, first + second) == Run(Run(c, first), second)
    ensures Except(c, first, f) && Except(Run(c, first), second, f) ==> Except(c, first + second, f)
    ensures AsSpecified(c, first) && AsSpecified(Run(c, first), second) ==> AsSpecified(c, first + second)
    ensures OneAtATime(c, first) && OneAtATime(Run(c, first), second) ==> OneAtATime(c, first + second)
    decreases |first|
  {
    if first == [] {
      assert first + second == second;
    } else {
      assert (first + second)[1..] == first[1..] + second;
      Concat(Step(c, first[0]), first[1..], second, f);
    }
  }

  lemma {:induction false} RespectedIsExcept(c: Config, actions: seq<Action>, f: FreezeId)
    requires VersionsRespected(c, actions)
    ensures Except(c, actions, f)
    decreases |actions|
  {
    if actions != [] {
      RespectedIsExcept(Step(c, actions[0]), actions[1..], f);
    }
  }

  // Actions that neither start a freeze nor recover satisfy every condition on runs.
  lemma {:induction false} Harmless(c: Config, actions: seq<Action>, f: FreezeId)
    requires forall i | 0 <= i < |actions| ::
      !actions[i].StartFreeze? && !actions[i].Recover? && !actions[i].WriteCheckpoint?
    ensures Except(c, actions, f) && AsSpecified(c, actions) && OneAtATime(c, actions)
    decreases |actions|
  {
    if actions != [] {
      Harmless(Step(c, actions[0]), actions[1..], f);
    }
  }

  // Freeze `f` writes its state, then hydration `h` reads both records.
  function CommitAndLook(f: FreezeId, h: HydrateId): seq<Action> {
    [WriteState(f), ReadState(h, 0), ReadMemory(h)]
  }

  lemma CommitThenMixed(c: Config, f: FreezeId, h: HydrateId)
    requires Commits(c, WriteState(f)) && h !in c.hydrates
    requires c.store.memory.Some? && c.store.memory.value.etag in c.owner && c.store.memory.value.etag != c.next
    requires c.freezes[f].stateOut.status == STATUS_FROZEN
    requires c.store.memory.value.rec.version == c.freezes[f].stateOut.workingMemoryVersion
    requires c.owner[c.store.memory.value.etag] != f
    ensures Mixed(Run(c, CommitAndLook(f, h)), h)
    ensures Run(c, CommitAndLook(f, h)).freezes.Keys == c.freezes.Keys
    ensures forall g | g in c.freezes ::
      Run(c, CommitAndLook(f, h)).freezes[g].memoryOut == c.freezes[g].memoryOut
    ensures forall k | k in c.hydrates :: k in Run(c, CommitAndLook(f, h)).hydrates
                                          && Run(c, CommitAndLook(f, h)).hydrates[k] == c.hydrates[k]
  {
    var a := CommitAndLook(f, h);
    var c1 := StepWriteState(c, f);
    var c2 := StepReadState(c1, h, 0);
    var c3 := StepReadMemory(c2, h);
    assert a[1..][1..] == [ReadMemory(h)] && a[1..][1..][1..] == [];
    assert Run(c, a) == Run(c1, a[1..]) == Run(c2, [ReadMemory(h)]) == Run(c3, []);
  }

  lemma NewestOfCreated(w: nat)
    ensures IsNewestSound(Created(w).store.checkpoints, 0)
  {
  }

  // Freeze 1 has written memory version `found` and paused; hydration 2 found it torn and was
  // handed w; freeze 2 has written version w + 1.
  ghost predicate Shortfall(c: Config, w: nat, found: nat) {
    && c.next == 4 && c.owner == map[0 := 0, 1 := 0, 2 := 1, 3 := 2]
    && c.hydrates.Keys == {1, 2} && c.freezes.Keys == {0, 1, 2}
    && c.store.state == Some(Cell(StateAt(w), 0))
    && c.store.memory == Some(Cell(FrozenMemory(MemoryAt(w), T0), 3))
    && c.store.checkpoints == Created(w).store.checkpoints
    && c.freezes[1].phase == MemoryWritten && c.freezes[1].stateTag == 0
    && found > 0 && c.freezes[1].stateOut == FrozenState(StateAt(found - 1), found, T0)
    && ShortfallAt2(c, w, found)
  }

  ghost predicate ShortfallAt2(c: Config, w: nat, found: nat) {
    && 2 in c.hydrates && c.hydrates[2].Hydrated? && c.hydrates[2].memory.version == w
    && c.hydrates[2].found.Some? && c.hydrates[2].found.value.rec.version == found
    && 2 in c.freezes && c.freezes[2].memoryOut.version == w + 1
  }

  lemma ShortfallPrefix(w: nat, found: nat) returns (run: seq<Action>)
    requires w < found
    ensures Shortfall(Run(Created(w), run), w, found)
    ensures Except(Created(w), run, 2)
    ensures found == w + 1 ==> AsSpecified(Created(w), run)
  {
    var c := Created(w);
    var s1, s2 := Session(1, false, 0, found - 1), Session(2, true, w, w);
    WholeSession(c, 1, found - 1);
    RespectedIsExcept(c, s1, 2);
    var c1 := AfterSession(c, 1, false, MemoryAt(w), found - 1);
    NewestOfCreated(w);
    assert c1.store.checkpoints[0].memory.(version := w) == MemoryAt(w);
    TornSession(c1, 2, 0, w, w);
    Concat(c, s1, s2, 2);
    run := s1 + s2;
  }

  // Version `found` stands in the store again, written by another freeze than the paused freeze 1.
  ghost predicate Climbed(d: Config, w: nat, found: nat) {
    && d.store.memory.Some? && d.store.memory.value.etag in d.owner && d.store.memory.value.etag != d.next
    && d.store.memory.value.rec.version == found && d.owner[d.store.memory.value.etag] != 1
    && 1 in d.freezes && d.freezes[1].phase == MemoryWritten && d.freezes[1].stateTag == 0
    && found > 0 && d.freezes[1].stateOut == FrozenState(StateAt(found - 1), found, T0)
    && d.store.state == Some(Cell(StateAt(w), 0)) && 4 !in d.hydrates
    && ShortfallAt2(d, w, found)
  }

  // If version w + 1 is not yet `found`, freeze 3 climbs there, respecting the hypothesis.
  lemma Climb(c: Config, w: nat, found: nat) returns (run: seq<Action>)
    requires w + 1 < found && Shortfall(c, w, found)
    ensures Except(c, run, 2) && Climbed(Run(c, run), w, found)
  {
    run := Session(3, true, w, found - 1);
    NewestOfCreated(w);
    assert c.store.checkpoints[0].memory.(version := w) == MemoryAt(w);
    TornSession(c, 3, 0, w, found - 1);
    RespectedIsExcept(c, run, 2);
  }

  // Then freeze 1 writes its state, and hydration 4 reads both records.
  lemma ClimbAndCommit(c: Config, w: nat, found: nat) returns (run: seq<Action>)
    requires w + 1 < found && Shortfall(c, w, found)
    ensures Except(c, run, 2) && Mixed(Run(c, run), 4) && ShortfallAt2(Run(c, run), w, found)
  {
    var climb := Climb(c, w, found);
    ClimbedThenCommits(Run(c, climb), w, found);
    Harmless(Run(c, climb), CommitAndLook(1, 4), 2);
    Concat(c, climb, CommitAndLook(1, 4), 2);
    run := climb + CommitAndLook(1, 4);
  }

  lemma ClimbedThenCommits(d: Config, w: nat, found: nat)
    requires Climbed(d, w, found)
    ensures Mixed(Run(d, CommitAndLook(1, 4)), 4) && ShortfallAt2(Run(d, CommitAndLook(1, 4)), w, found)
  {
    CommitThenMixed(d, 1, 4);
  }

  lemma CommitAtOnce(c: Config, w: nat)
    requires Shortfall(c, w, w + 1)
    ensures Except(c, CommitAndLook(1, 4), 2) && AsSpecified(c, CommitAndLook(1, 4))
    ensures Mixed(Run(c, CommitAndLook(1, 4)), 4) && ShortfallAt2(Run(c, CommitAndLook(1, 4)), w, w + 1)
  {
    ClimbedThenCommits(c, w, w + 1);
    Harmless(c, CommitAndLook(1, 4), 2);
  }

  // Necessity, for every shortfall: there is a run that respects the version hypothesis everywhere
  // but at one freeze, which was handed w where its hydration had found a higher version, and whose
  // last hydration accepts a state and a memory written by different freezes.
  lemma EveryShortfallMixes(w: nat, found: nat) returns (run: seq<Action>)
    requires w < found
    ensures Init(Created(w)) && Except(Created(w), run, 2)
    ensures ShortfallAt2(Run(Created(w), run), w, found) && Mixed(Run(Created(w), run), 4)
  {
    var first := ShortfallPrefix(w, found);
    var c := Run(Created(w), first);
    var rest;
    if found == w + 1 {
      CommitAtOnce(c, w);
      rest := CommitAndLook(1, 4);
    } else {
      rest := ClimbAndCommit(c, w, found);
    }
    Concat(Created(w), first, rest, 2);
    run := first + rest;
  }

  // Recovery as specified keeps the checkpoint's own version, which is such a shortfall: two
  // concurrent freezes are enough.
  lemma SpecifiedRecoveryMixes(w: nat) returns (run: seq<Action>)
    ensures Init(Created(w)) && AsSpecified(Created(w), run)
    ensures Mixed(Run(Created(w), run), 4)
  {
    var first := ShortfallPrefix(w, w + 1);
    CommitAtOnce(Run(Created(w), first), w);
    Concat(Created(w), first, CommitAndLook(1, 4), 2);
    run := first + CommitAndLook(1, 4);
  }

  lemma TwoSteps(c: Config, a: Action, b: Action)
    ensures Run(c, [a, b]) == Step(Step(c, a), b)
  {
    assert [a, b][1..] == [b] && [b][1..] == [];
    assert Run(Step(Step(c, a), b), []) == Step(Step(c, a), b);
  }

  lemma OneStep(c: Config, a: Action)
    ensures Run(c, [a]) == Step(c, a)
  {
    assert [a][1..] == [];
    assert Run(Step(c, a), []) == Step(c, a);
  }

  ghost predicate Turned(c: Config, run: seq<Action>) {
    AsSpecified(c, run) && OneAtATime(c, run)
  }

  // The records in the store, by version and tag, once freeze 1 has committed without a checkpoint.
  ghost predicate Lost(c: Config, w: nat, memoryVersion: nat, memoryTag: ETag) {
    && Quiet(c) && c.store.checkpoints == Created(w).store.checkpoints
    && c.store.state == Some(Cell(FrozenState(StateAt(w), w + 1, T0), 3))
    && c.store.memory.Some? && c.store.memory.value.rec.version == memoryVersion
    && c.store.memory.value.etag == memoryTag
    && memoryTag in c.owner && 3 in c.owner && c.owner[3] == 1 && 4 !in c.hydrates
  }

  lemma Loss(w: nat) returns (run: seq<Action>)
    ensures Turned(Created(w), run)
    ensures var c := Run(Created(w), run);
            Lost(c, w, w + 1, 2) && c.next == 4 && c.hydrates.Keys == {1} && c.freezes.Keys == {0, 1}
  {
    WholeSession(Created(w), 1, w);
    var c := AfterSession(Created(w), 1, false, MemoryAt(w), w);
    TwoSteps(c, WriteState(1), LoseCheckpoint(1));
    Harmless(c, [WriteState(1), LoseCheckpoint(1)], 0);
    Concat(Created(w), Session(1, false, 0, w), [WriteState(1), LoseCheckpoint(1)], 0);
    run := Session(1, false, 0, w) + [WriteState(1), LoseCheckpoint(1)];
  }

  lemma FirstCrash(c: Config, w: nat) returns (run: seq<Action>)
    requires Lost(c, w, w + 1, 2) && c.next == 4 && c.hydrates.Keys == {1} && c.freezes.Keys == {0, 1}
    ensures Turned(c, run)
    ensures var d := Run(c, run);
            Lost(d, w, w + 2, 4) && d.next == 5 && d.hydrates.Keys == {1, 2} && d.freezes.Keys == {0, 1, 2}
  {
    WholeSession(c, 2, w + 1);
    var d := AfterSession(c, 2, false, c.store.memory.value.rec, w + 1);
    OneStep(d, Crash(2));
    Harmless(d, [Crash(2)], 0);
    Concat(c, Session(2, false, 0, w + 1), [Crash(2)], 0);
    run := Session(2, false, 0, w + 1) + [Crash(2)];
  }

  lemma SecondCrash(c: Config, w: nat) returns (run: seq<Action>)
    requires Lost(c, w, w + 2, 4) && c.next == 5 && c.hydrates.Keys == {1, 2} && c.freezes.Keys == {0, 1, 2}
    ensures Turned(c, run)
    ensures var d := Run(c, run); Lost(d, w, w + 1, 5) && d.owner[5] == 3
  {
    NewestOfCreated(w);
    TornSession(c, 3, 0, w, w);
    assert c.store.checkpoints[0].memory.(version := w) == MemoryAt(w);
    var d := AfterSession(c, 3, true, MemoryAt(w), w);
    OneStep(d, Crash(3));
    Harmless(d, [Crash(3)], 0);
    Concat(c, Session(3, true, w, w), [Crash(3)], 0);
    run := Session(3, true, w, w) + [Crash(3)];
  }

  lemma LookAccepts(c: Config, w: nat)
    requires Lost(c, w, w + 1, 5) && c.owner[5] == 3
    ensures Turned(c, [ReadState(4, 0), ReadMemory(4)]) && Mixed(Run(c, [ReadState(4, 0), ReadMemory(4)]), 4)
  {
  }

  lemma Then(c: Config, first: seq<Action>, second: seq<Action>)
    requires Turned(c, first) && Turned(Run(c, first), second)
    ensures Turned(c, first + second) && Run(c, first + second) == Run(Run(c, first), second)
  {
    Concat(c, first, second, 0);
  }

  // Not even concurrency is needed, because a lost checkpoint write is not an error: freeze 1
  // commits and loses its checkpoint, freeze 2 crashes after its memory write, hydration 3 recovers
  // from the older checkpoint and freeze 3 crashes after its memory write, at the version that
  // freeze 1 committed.
  lemma LostCheckpointMixes(w: nat) returns (run: seq<Action>)
    ensures Init(Created(w))
    ensures AsSpecified(Created(w), run) && OneAtATime(Created(w), run)
    ensures Mixed(Run(Created(w), run), 4)
  {
    var c := Created(w);
    var loss := Loss(w);
    var first := FirstCrash(Run(c, loss), w);
    Then(c, loss, first);
    var second := SecondCrash(Run(c, loss + first), w);
    Then(c, loss + first, second);
    var look := [ReadState(4, 0), ReadMemory(4)];
    LookAccepts(Run(c, loss + first + second), w);
    Then(c, loss + first + second, look);
    run := loss + first + second + look;
  }
}
