/** Safety of the freeze / hydrate protocol over all runs. */
module ProtocolSafety {
  import opened Outcomes
  import opened Records
  import opened Protocol
  import opened ProtocolInvariants

  ghost predicate Reachable(c: Config, start: Config, actions: seq<Action>) {
    Init(start) && VersionsRespected(start, actions) && c == Run(start, actions)
  }

  lemma ReachableInvariants(c: Config, start: Config, actions: seq<Action>)
    requires Reachable(c, start, actions)
    ensures Ledger(c) && VersionOrder(c)
  {
    InitLedger(start);
    InitVersionOrder(start);
    RunKeepsLedger(start, actions);
    RunKeepsVersionOrder(start, actions);
  }

  /******* Torn writes *******/

  // The version check compares two records exactly as well as comparing their writers would.
  lemma SameVersionSameFreeze(c: Config, state: StateCell, memory: MemoryCell)
    requires Ledger(c) && VersionOrder(c) && OwnsState(c, state) && OwnsMemory(c, memory)
    ensures state.rec.workingMemoryVersion == memory.rec.version <==> c.owner[state.etag] == c.owner[memory.etag]
  {
    var f, g := c.owner[state.etag], c.owner[memory.etag];
    assert FreezeOk(c, c.freezes[f]) && FreezeOk(c, c.freezes[g]);
    assert c.freezes[f].wroteMemory && c.freezes[g].wroteMemory;
  }

  // In every reachable store the state's memory version is at most the memory's own version, with
  // equality exactly when one freeze wrote both records.
  lemma TornWritesAreVisible(c: Config, start: Config, actions: seq<Action>)
    requires Reachable(c, start, actions)
    requires c.store.state.Some? && c.store.memory.Some?
    ensures c.store.state.value.etag in c.owner && c.store.memory.value.etag in c.owner
    ensures c.store.state.value.rec.workingMemoryVersion <= c.store.memory.value.rec.version
    ensures c.store.state.value.rec.workingMemoryVersion == c.store.memory.value.rec.version <==>
            c.owner[c.store.state.value.etag] == c.owner[c.store.memory.value.etag]
  {
    ReachableInvariants(c, start, actions);
    SameVersionSameFreeze(c, c.store.state.value, c.store.memory.value);
    var f := c.owner[c.store.state.value.etag];
    assert FreezeOk(c, c.freezes[f]) && c.freezes[f].wroteMemory;
  }

  /******* No mixed pair *******/

  // A hydration that did not recover returns the two records of one freeze, and they are the pair
  // that was committed when it read the state record: it linearises at that read.
  lemma NoMixedPair(c: Config, start: Config, actions: seq<Action>, h: HydrateId)
    returns (k: FreezeId)
    requires Reachable(c, start, actions)
    requires h in c.hydrates && c.hydrates[h].Hydrated? && !c.hydrates[h].recovered
    ensures k in c.freezes && c.freezes[k].wroteMemory && c.freezes[k].wroteState
    ensures c.hydrates[h].state.rec == c.freezes[k].stateOut
    ensures c.hydrates[h].memory == c.freezes[k].memoryOut
    ensures c.hydrates[h].at == Some(Commit(k, c.hydrates[h].state.rec, c.hydrates[h].memory))
  {
    ReachableInvariants(c, start, actions);
    var hydrate := c.hydrates[h];
    assert HydrateOk(c, hydrate);
    SameVersionSameFreeze(c, hydrate.state, hydrate.found.value);
    k := c.owner[hydrate.state.etag];
    assert FreezeOk(c, c.freezes[k]);
  }

  // The check accepts exactly the pairs written by one freeze: it neither lets a mixed pair through
  // nor sends a whole one to recovery.
  lemma CheckIsExact(c: Config, start: Config, actions: seq<Action>, h: HydrateId)
    requires Reachable(c, start, actions)
    requires h in c.hydrates && c.hydrates[h].StateRead?
    ensures c.hydrates[h].state.etag in c.owner
    ensures c.store.memory.Some? ==> c.store.memory.value.etag in c.owner
    ensures Step(c, ReadMemory(h)).hydrates[h].Hydrated? <==>
            c.store.memory.Some? && c.owner[c.hydrates[h].state.etag] == c.owner[c.store.memory.value.etag]
  {
    ReachableInvariants(c, start, actions);
    assert HydrateOk(c, c.hydrates[h]);
    if c.store.memory.Some? {
      SameVersionSameFreeze(c, c.hydrates[h].state, c.store.memory.value);
    }
  }

  /******* A freeze is atomic at its state write *******/

  predicate Commits(c: Config, a: Action) {
    && a.WriteState? && a.f in c.freezes && c.freezes[a.f].phase == MemoryWritten
    && StateTagMatches(c, c.freezes[a.f])
  }

  function NewCommit(c: Config, f: FreezeId): Commit
    requires f in c.freezes
  {
    Commit(f, c.freezes[f].stateOut, c.freezes[f].memoryOut)
  }

  lemma GrowsKeepsCommitted(c: Config, d: Config)
    requires Ledger(c) && Grows(c, d) && d.store.state == c.store.state
    ensures Committed(d) == Committed(c)
  {
  }

  lemma OnlyCommitsWriteState(c: Config, a: Action)
    requires !Commits(c, a)
    ensures Step(c, a).store.state == c.store.state
  {
  }

  lemma CommitSwaps(c: Config, f: FreezeId)
    requires Ledger(c) && Commits(c, WriteState(f))
    ensures Committed(c) == c.freezes[f].basis && Committed(c).Some?
    ensures Committed(StepWriteState(c, f)) == Some(NewCommit(c, f))
  {
    assert FreezeOk(c, c.freezes[f]);
    assert OwnsState(c, c.store.state.value);
  }

  // A state write that its tag lets through replaces exactly the pair its own hydration saw; every
  // other step leaves the committed pair alone.
  lemma StepRefinesRegister(c: Config, a: Action)
    requires Ledger(c)
    ensures Commits(c, a) ==> && Committed(c) == c.freezes[a.f].basis && Committed(c).Some?
                              && Committed(Step(c, a)) == Some(NewCommit(c, a.f))
    ensures !Commits(c, a) ==> Committed(Step(c, a)) == Committed(c)
  {
    if Commits(c, a) {
      CommitSwaps(c, a.f);
    } else {
      StepKeepsLedger(c, a);
      OnlyCommitsWriteState(c, a);
      GrowsKeepsCommitted(c, Step(c, a));
    }
  }

  // The abstract store: one register holding a pair, changed only by compare-and-set.
  datatype Swap = Swap(expected: Option<Commit>, updated: Commit)

  // None when some swap found another pair than it expected.
  function Replay(value: Option<Commit>, swaps: seq<Swap>): Option<Commit>
    decreases |swaps|
  {
    if swaps == [] then value
    else if value.Some? && value == swaps[0].expected then Replay(Some(swaps[0].updated), swaps[1..])
    else None
  }

  // The swaps a run makes: each expects what the committing freeze's hydration saw.
  ghost function Swaps(c: Config, actions: seq<Action>): seq<Swap>
    decreases |actions|
  {
    if actions == [] then []
    else
      var rest := Swaps(Step(c, actions[0]), actions[1..]);
      if Commits(c, actions[0]) then
        [Swap(c.freezes[actions[0].f].basis, NewCommit(c, actions[0].f))] + rest
      else rest
  }

  // Every run of the two-key store is a run of the one-register store: no swap ever fails, so no
  // committed update is lost.  The version hypothesis plays no part here.
  lemma {:induction false} RunRefinesRegister(c: Config, actions: seq<Action>)
    requires Ledger(c)
    ensures Replay(Committed(c), Swaps(c, actions)) == Committed(Run(c, actions))
    decreases |actions|
  {
    if actions != [] {
      var d := Step(c, actions[0]);
      StepRefinesRegister(c, actions[0]);
      StepKeepsLedger(c, actions[0]);
      RunRefinesRegister(d, actions[1..]);
      if Commits(c, actions[0]) {
        var first := Swap(c.freezes[actions[0].f].basis, NewCommit(c, actions[0].f));
        assert Swaps(c, actions)[0] == first && Swaps(c, actions)[1..] == Swaps(d, actions[1..]);
      }
    }
  }

  // End to end: a freeze started from a hydration that did not recover commits only while the
  // committed pair is still exactly the pair that hydration returned.
  lemma NoLostUpdate(c: Config, start: Config, before: seq<Action>, a: Action, after: seq<Action>)
    requires Reachable(c, start, before)
    requires a.StartFreeze? && a.f !in c.freezes
    requires a.h in c.hydrates && c.hydrates[a.h].Hydrated? && !c.hydrates[a.h].recovered
    requires Commits(Run(Step(c, a), after), WriteState(a.f))
    ensures var seen := Committed(Run(Step(c, a), after));
            && seen.Some? && seen.value.state == c.hydrates[a.h].state.rec
            && seen.value.memory == c.hydrates[a.h].memory
  {
    ReachableInvariants(c, start, before);
    var k := NoMixedPair(c, start, before, a.h);
    var d := Step(c, a);
    StepKeepsLedger(c, a);
    assert d.freezes[a.f].basis == c.hydrates[a.h].at;
    RunKeepsLedger(d, after);
    StepRefinesRegister(Run(d, after), WriteState(a.f));
  }

  /******* Fencing *******/

  predicate MemoryTagStale(c: Config, freeze: Freeze) {
    freeze.memoryTag.Some? && c.store.memory.Some? ==> freeze.memoryTag.value < c.store.memory.value.etag
  }

  predicate StateTagStale(c: Config, freeze: Freeze) {
    c.store.state.Some? ==> freeze.stateTag < c.store.state.value.etag
  }

  // A freeze that can no longer commit: it has ended without committing, or it will be refused at
  // its memory write, or at its state write.
  predicate Fenced(c: Config, f: FreezeId) {
    && f in c.freezes && !c.freezes[f].wroteState
    && (|| !Pending(c.freezes[f])
        || StateTagStale(c, c.freezes[f])
        || (c.freezes[f].phase == Started && MemoryTagStale(c, c.freezes[f])))
  }

  // Tags only get older and a fenced freeze can only be refused or crash.
  lemma StepKeepsFenced(c: Config, a: Action, f: FreezeId)
    requires Ledger(c) && Fenced(c, f)
    ensures Fenced(Step(c, a), f)
  {
  }

  // Once fenced, a freeze does not commit in any continuation, whatever the others do.
  lemma {:induction false} FencedNeverCommits(c: Config, actions: seq<Action>, f: FreezeId)
    requires Ledger(c) && Fenced(c, f)
    ensures Fenced(Run(c, actions), f)
    decreases |actions|
  {
    if actions != [] {
      StepKeepsFenced(c, actions[0], f);
      StepKeepsLedger(c, actions[0]);
      FencedNeverCommits(Step(c, actions[0]), actions[1..], f);
    }
  }

  // A commit fences every freeze that was under way and had not committed.
  lemma CommitFencesTheRest(c: Config, f: FreezeId, g: FreezeId)
    requires Ledger(c) && Commits(c, WriteState(f))
    requires g in c.freezes && g != f && !c.freezes[g].wroteState
    ensures Fenced(Step(c, WriteState(f)), g)
  {
    assert FreezeOk(c, c.freezes[g]);
  }

  /******* Crashes *******/

  lemma {:induction false} CrashedStays(c: Config, actions: seq<Action>, f: FreezeId)
    requires f in c.freezes && c.freezes[f].phase == Crashed
    ensures f in Run(c, actions).freezes && Run(c, actions).freezes[f] == c.freezes[f]
    decreases |actions|
  {
    if actions != [] {
      var d := Step(c, actions[0]);
      assert f in d.freezes && d.freezes[f] == c.freezes[f];
      CrashedStays(d, actions[1..], f);
    }
  }

  // A crash can hit a freeze before any of its three writes, and ends it there: what it has written
  // by then stays and what it has not is never written, its checkpoint included.
  lemma CrashIsFinal(c: Config, actions: seq<Action>, f: FreezeId)
    requires f in c.freezes
    requires c.freezes[f].phase == Started || c.freezes[f].phase == MemoryWritten || c.freezes[f].phase == StateWritten
    ensures Step(c, Crash(f)).store == c.store
    ensures var d := Run(Step(c, Crash(f)), actions);
            f in d.freezes && d.freezes[f] == c.freezes[f].(phase := Crashed)
  {
    CrashedStays(Step(c, Crash(f)), actions, f);
  }

  /******* Expiry *******/

  // Freeze always guards its memory write with a tag, and an absent key matches none: once the
  // memory record has expired, no freeze brings it back.
  lemma {:induction false} ExpiryIsFinal(c: Config, actions: seq<Action>)
    requires c.store.memory.None?
    ensures Run(c, actions).store.memory.None?
    decreases |actions|
  {
    if actions != [] {
      assert Step(c, actions[0]).store.memory.None?;
      ExpiryIsFinal(Step(c, actions[0]), actions[1..]);
    }
  }

  // So no freeze that had not yet written its memory when the record expired ever commits.
  lemma ExpiryStopsFreezes(c: Config, actions: seq<Action>, f: FreezeId)
    requires Ledger(c) && c.store.memory.None?
    requires f in c.freezes && c.freezes[f].phase == Started
    ensures f in Run(c, actions).freezes && !Run(c, actions).freezes[f].wroteState
  {
    assert FreezeOk(c, c.freezes[f]);
    FencedNeverCommits(c, actions, f);
  }
}
