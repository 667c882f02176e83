# Agent state: freezing, hydrating, and the machinery around it

An agent of the swarm lives in a key-value store as a state record, a working-memory record and a
series of checkpoints. *Freezing* it is two conditional writes, working memory first and state
second, followed by a checkpoint whose failure is ignored. *Hydrating* it is two separate reads, a
comparison of the memory version named by the state with the memory's own, and a fall-back to the
newest checkpoint whose digest verifies. Nothing makes the two writes atomic. This project proves
what the protocol guarantees nevertheless, in every interleaving and with crashes at any point, and
exactly where its guarantees stop. Three smaller subjects follow: the composite keys, the schema
migration loop, and the token budget gate.

`dafny verify dfyconfig.toml` checks the whole project.

## How the files fit together

| file | subject |
|---|---|
| `Outcomes`, `Records` | results, errors, the stored records and the field updates of a freeze |
| `Protocol` | one agent as a transition system: twelve kinds of atomic step, any number of freezes and hydrations |
| `ProtocolInvariants` | what every step keeps: provenance of every record, and the order of versions |
| `ProtocolSafety` | no mixed pair, torn writes visible, refinement of a one-register store, fencing, expiry |
| `ProtocolRecovery` | newest checkpoint, recovery of the committed pair, self-healing |
| `ProtocolVersions` | how low a recovered version may be: sufficiency, and a bad run for every shortfall |
| `StateStore`, `Freeze`, `Hydrate` | the store and the two managers as classes over mutable state |
| `HydrateOutcomes` | what recovery and hydration answer, error by error, in terms of the stored records |
| `Refinement` | the class methods are runs of the transition system |
| `RoundTrip` | every outcome of a freeze and what the next hydration makes of it, on the whole store |
| `Text`, `Keys` | strings, decimals and lexicographic order; keys, parser, collisions, prefix scans, order |
| `Namespace` | cache namespace prefixes |
| `Migrations` | the registry, its loop, when it halts and what it computes |
| `Sums`, `Budget`, `BudgetRuns`, `BudgetLimits` | the budget gate, whole calls and interleaved |

The transition system carries bookkeeping the code does not have: freeze ids, the map `owner` from
each ETag to the freeze that wrote under it, and the committed pair at the time of a hydration's
state read. No step looks at it. `Step` is total, so a run is any sequence of actions.

## What was found

* **The version hypothesis.** The safety results assume that a freeze is given a memory version at
  least that of the record its `memory_etag` was read from. `freeze` cannot check this: it receives
  both from its caller. A recovery that never hands back less than the version it found makes every
  run safe (`LiftedRecoveryIsSafe`). For *every* smaller version there is a run whose last
  hydration accepts records of two freezes (`EveryShortfallMixes`).
* **Recovery as it is described breaks the hypothesis.** Restoring the checkpoint's own record
  (hydrate.rs:159-164) is such a shortfall: two concurrent freezes then mix
  (`SpecifiedRecoveryMixes`). Because a failed checkpoint write is not an error (freeze.rs:98-110),
  not even concurrency is needed: one lost checkpoint and two crashes suffice (`LostCheckpointMixes`).
* **Expiry is final.** `freeze` always guards its memory write with a tag and an absent key matches
  none, so once the memory record has expired no freeze can bring it back (`ExpiryIsFinal`). The
  plan in gc.rs:83-84 says it is re-created on the next hydration; no code does so.
* **`validate_id` is never called** in its crate, so validity of ids is a hypothesis here. It is also
  not sufficient: two accepted owners share all their keys exactly when a bar can move across the
  separator (`ValidationGap`). For the parser the exact condition is on the tenant id alone: it must
  not end in a bar (`ParsePrint`). Agent ids may end in one, and turn and log ids need no condition.
* **Comments against code in hydration.** hydrate.rs:131-132 says recovery sets the version in the
  state; recovery returns only a memory record and the state is returned as read. hydrate.rs:40-47
  lists the consistency check before the stale guard; the code has it after. The model follows the code.
* **The overshoot of the budget gate** is bounded by the number of requests *counted from the load
  of the global counter*. Counting from the answer of `has_capacity` bounds nothing
  (`CountingAdmittedIsNotEnough`); counted from the load, the bound is attained (`OvershootIsAttained`).
* **A window reset between the two adds of one call** leaves the global counter short of those
  tokens for the window (`ResetForgetsHalfRecorded`).
* **The migration loop** halts exactly when the chain of versions ends, as long as steps succeed;
  a step that inspects the record can stop a cycling loop after any number of iterations
  (`FailureCanComeLate`). A step that passes the latest version is accepted by the loop, though a
  fresh call with that version is refused (`OneStepThenTheRest`).
* **Namespace prefixes** of different tenants can coincide exactly when one tenant id continues the
  other with `:` and a label (`TenantsShareAPrefix`), which needs a tenant id with a colon.

## Assumptions

The store's method bodies are placeholders in the source; its contract is taken from their
comments (store.rs:80-81, 90-94, 134). Every successful write gets a fresh ETag. `HydrationResult`
drops the ETags that `FreezeInput` asks for (hydrate.rs:16-21 and 59, freeze.rs:26-29); the model's
result keeps both. `recover_from_checkpoint` is likewise a placeholder and is modelled from its five
steps; a value under the checkpoint prefix that is not a checkpoint counts as one that does not
verify. Clock readings and whether each write reaches the store are parameters. No code sets an
agent ACTIVE, so the stale guard is a branch on whatever status the record has, not a lock.

## Model

| member | source | states |
|---|---|---|
| `ProtocolInvariants.StepKeepsLedger` | crates/af-swarm-state/src/freeze.rs:62-155 | every step, enabled or not, keeps the provenance invariant: each stored, read or pending record and tag names the one freeze that wrote it with that content, and history only grows |
| `ProtocolInvariants.RunKeepsLedger` | crates/af-swarm-state/src/freeze.rs:62-155 | so does every run |
| `ProtocolInvariants.ReplacementIsNewest` | crates/af-swarm-state/src/freeze.rs:66-77 | a memory write that its ETag lets through carries a version above every version written before |
| `ProtocolInvariants.StepKeepsVersionOrder` | crates/af-swarm-state/src/freeze.rs:66-94 | under the version hypothesis every step keeps: memory versions written are pairwise different and the stored one is the greatest |
| `ProtocolInvariants.RunKeepsVersionOrder` | crates/af-swarm-state/src/freeze.rs:66-94 | so does every run under that hypothesis |
| `ProtocolSafety.TornWritesAreVisible` | crates/af-swarm-state/src/freeze.rs:51-60 | in every reachable store holding both records the state's memory version is at most the memory's, with equality if and only if one freeze wrote both |
| `ProtocolSafety.NoMixedPair` | crates/af-swarm-state/src/hydrate.rs:105-149 | a hydration that did not recover returns the two records of one freeze, which were the committed pair when it read the state |
| `ProtocolSafety.CheckIsExact` | crates/af-swarm-state/src/hydrate.rs:117-137 | the version check accepts if and only if the same freeze wrote both records |
| `ProtocolSafety.StepRefinesRegister` | crates/af-swarm-state/src/freeze.rs:89-94 | a state write that passes its guard replaces exactly the committed pair its own hydration saw; no other step changes the committed pair |
| `ProtocolSafety.RunRefinesRegister` | crates/af-swarm-state/src/freeze.rs:62-114 | every run of the two-key store is a run of one compare-and-set register in which no swap fails |
| `ProtocolSafety.NoLostUpdate` | crates/af-swarm-state/src/freeze.rs:26-29 | a freeze started from an unrecovered hydration commits only while the committed pair is still the one that hydration returned |
| `ProtocolSafety.FencedNeverCommits` | crates/af-swarm-state/src/store.rs:90-94 | a freeze whose tag is outdated never commits in any continuation |
| `ProtocolSafety.CommitFencesTheRest` | crates/af-swarm-state/src/freeze.rs:89-94 | one commit fences every freeze that was under way |
| `ProtocolSafety.CrashIsFinal` | crates/af-swarm-state/src/freeze.rs:59-60 | a freeze crashing before any of its writes keeps what it has written and never writes the rest, in every continuation |
| `ProtocolSafety.ExpiryIsFinal` | crates/af-swarm-state/src/freeze.rs:72-77 | once the memory record has expired it stays absent in every continuation |
| `ProtocolSafety.ExpiryStopsFreezes` | crates/af-swarm-state/src/freeze.rs:72-94 | a freeze that had not written its memory when the record expired never commits |
| `ProtocolRecovery.StepKeepsSequenced` | crates/af-swarm-state/src/freeze.rs:98-155 | with freezes taking turns and a clock that does not go back, every step keeps the checkpoint with the greatest number that of the last freeze that wrote one |
| `ProtocolRecovery.NewestCheckpointIsLast` | crates/af-swarm-state/src/freeze.rs:124-154 | in all those runs the greatest checkpoint number holds the records of the last freeze whose checkpoint write succeeded, also within one second |
| `ProtocolRecovery.RecoveryRestoresCommitted` | crates/af-swarm-state/src/hydrate.rs:152-166 | after a crash between the writes or an expiry, in those runs, hydration restores exactly the committed pair if its checkpoint was written and verifies |
| `ProtocolRecovery.HydrationReturnsCommitted` | crates/af-swarm-state/src/hydrate.rs:49-150 | with the version hypothesis as well, hydration of a whole, torn or memory-less store returns the committed pair |
| `ProtocolRecovery.SelfHealing` | crates/af-swarm-state/src/hydrate.rs:113-138 | from any torn store with a verifying checkpoint, one recovered hydration and one undisturbed freeze leave equal versions under one owner and fence every other pending freeze for good |
| `ProtocolRecovery.HealedHydrationDoesNotRecover` | crates/af-swarm-state/src/hydrate.rs:134-136 | the next hydration accepts the healed pair unrecovered |
| `ProtocolVersions.LiftedRespectsVersions` | crates/af-swarm-state/src/hydrate.rs:117-133 | if recovery never hands back less than it found and callers keep the version, the version hypothesis holds in the whole run |
| `ProtocolVersions.LiftedRecoveryIsSafe` | crates/af-swarm-state/src/hydrate.rs:117-133 | so under such a recovery no hydration ever accepts records of two freezes |
| `ProtocolVersions.EveryShortfallMixes` | crates/af-swarm-state/src/hydrate.rs:117-133 | for every version below the one found there is a run, respecting the hypothesis at every other freeze, that ends in an accepted mixed pair |
| `ProtocolVersions.SpecifiedRecoveryMixes` | crates/af-swarm-state/src/hydrate.rs:159-164 | recovery with the checkpoint's own version admits a run with two concurrent freezes that ends in an accepted mixed pair |
| `ProtocolVersions.LostCheckpointMixes` | crates/af-swarm-state/src/freeze.rs:98-110 | with a lost checkpoint write the same happens though no two freezes overlap |
| `StateStore.DaprStateStore.Get` | crates/af-swarm-state/src/store.rs:80-88 | the entry under the key, or none if and only if there is none |
| `StateStore.DaprStateStore.Set` | crates/af-swarm-state/src/store.rs:90-107 | writes under a fresh ETag, or leaves the store alone with a conflict exactly when a given ETag is not the current one; tags stay below the next one |
| `StateStore.DaprStateStore.ListKeysWithPrefix` | crates/af-swarm-state/src/store.rs:134-147 | exactly the keys with the prefix, each once |
| `StateStore.DaprStateStore.Expire` | crates/af-swarm-state/src/store.rs:32-40 | removes a record that has a time to live, and nothing else |
| `Freeze.AgentFreezeManager.Freeze` | crates/af-swarm-state/src/freeze.rs:62-114 | the whole new store and the result, as the specification whose store, number and errors `RoundTrip.FreezeOutcomes` says outright |
| `Freeze.AgentFreezeManager.WriteCheckpoint` | crates/af-swarm-state/src/freeze.rs:117-155 | the checkpoint of both records under their digest, written unconditionally; its number or the error of the write |
| `Hydrate.AgentHydrationManager.Hydrate` | crates/af-swarm-state/src/hydrate.rs:49-150 | for every content of the store, the result or error of the specification whose answers the `HydrateOutcomes` rows say outright |
| `Hydrate.AgentHydrationManager.RecoverFromCheckpoint` | crates/af-swarm-state/src/hydrate.rs:154-166 | the answer that `HydrateOutcomes.RecoversNewestIntact` says outright |
| `HydrateOutcomes.RecoversNewestIntact` | crates/af-swarm-state/src/hydrate.rs:159-164 | recovery restores m if and only if m is the memory of a checkpoint whose stored digest is the hash of its two snapshots and no such checkpoint has a greater key; it fails if and only if there is none |
| `HydrateOutcomes.SpoiledCheckpointIsSkipped` | crates/af-swarm-state/src/hydrate.rs:162-163 | spoiling the digest of any checkpoint makes recovery what it is without that key |
| `HydrateOutcomes.SameReadsSameHydration` | crates/af-swarm-state/src/hydrate.rs:49-150 | hydration depends on nothing but the agent's two keys and its checkpoint prefix |
| `HydrateOutcomes.HydrationRefusals` | crates/af-swarm-state/src/hydrate.rs:57-115 | exactly when a state is missing, a record unreadable or an agent busy |
| `HydrateOutcomes.BusyUntil` | crates/af-swarm-state/src/hydrate.rs:74-103 | busy if and only if ACTIVE and less than 300 seconds past the last hydration, a negative time read as its 64-bit pattern; the seconds reported |
| `HydrateOutcomes.AnswersWithoutCheckpoint` | crates/af-swarm-state/src/hydrate.rs:105-138 | with no intact checkpoint: no checkpoint available if and only if the memory record is missing, a torn write with both versions if and only if they differ, else the pair as stored |
| `HydrateOutcomes.AnswersWithCheckpoint` | crates/af-swarm-state/src/hydrate.rs:105-149 | with one: a matching pair as stored, and otherwise the newest intact checkpoint's memory, with the tags of what was found |
| `Refinement.FreezeRefinesProtocol` | crates/af-swarm-state/src/freeze.rs:62-114 | a freeze on the key-value store is four actions of the transition system: same store, same outcome, same reported number; a lost write is a crash, a conflict a conflict |
| `Refinement.ExpiryIsAStep` | crates/af-swarm-state/src/store.rs:32-40 | the store dropping the memory record is the expiry step of the transition system |
| `Refinement.SpoilingIsAStep` | crates/af-swarm-state/src/hydrate.rs:162 | a checkpoint whose digest no longer matches is its corruption step |
| `Refinement.OtherWriteIsAStep` | crates/af-swarm-state/src/store.rs:90-107 | a write of another agent's key uses up an ETag, or nothing if it is refused or lost |
| `Refinement.FreezeLeavesOthers` | crates/af-swarm-state/src/freeze.rs:62-155 | it leaves records and checkpoints of every agent with another owner text alone |
| `Refinement.NewestKeyIsNewestSeqno` | crates/af-swarm-state/src/hydrate.rs:160-163 | the greatest verifying key is the key of the greatest verifying number, both ways |
| `Refinement.RecoverRefines` | crates/af-swarm-state/src/hydrate.rs:154-166 | recovery by key order is recovery by number |
| `Refinement.HydrateRefinesProtocol` | crates/af-swarm-state/src/hydrate.rs:49-150 | a hydration on the key-value store is three actions of the transition system with the same outcome, each error with its own failure |
| `RoundTrip.FreezeOutcomes` | crates/af-swarm-state/src/freeze.rs:62-114 | a freeze succeeds if and only if both guards hold and both writes get through; the exact store after success, after a torn write and after none, and the exact error: that of the first failing write, a conflict naming its key |
| `RoundTrip.FreezeHydrateRoundTrip` | crates/af-swarm-state/src/hydrate.rs:57-149 | after a successful freeze, hydration at any later time returns the input changed only in version, status, timestamps, task fields and schema version, unrecovered, with the two new tags |
| `RoundTrip.FreezeExpireRoundTrip` | crates/af-swarm-state/src/hydrate.rs:108-112 | the same, recovered and without memory tag, when the memory record expired first and no other verifying checkpoint has a greater key |
| `RoundTrip.FailedFreezeIsSeen` | crates/af-swarm-state/src/freeze.rs:59-60 | after a failed freeze hydration is as before, or takes a half-written pair for whole exactly when its version is the one the state names, or else recovers what the checkpoints held, or reports both versions |
| `RoundTrip.TornFreezeIsDetected` | crates/af-swarm-state/src/freeze.rs:59-60 | under the version hypothesis a freeze stopped between its writes is never hydrated as it stands |
| `RoundTrip.HydrateFreezeHeals` | crates/af-swarm-state/src/freeze.rs:72-94 | freezing with the tags of a hydration, recovered or not, succeeds, is what the next hydration returns, and has every freeze with an older memory tag refused before it writes |
| `RoundTrip.FreezeKeepsOtherHydrations` | crates/af-swarm-state/src/lib.rs:78-90 | a freeze of an agent with unambiguous ids, whatever its outcome, leaves hydration of every other agent unchanged |
| `RoundTrip.AmbiguousAgentsShareRecords` | crates/af-swarm-state/src/store.rs:68-78 | for ambiguous ids some other accepted pair hydrates to this agent's records |
| `Keys.BuildersPrint` | crates/af-swarm-state/src/lib.rs:78-100 | all five builders print one layout |
| `Keys.ValidateIdAccepts` | crates/af-swarm-state/src/store.rs:68-78 | accepted if and only if non-empty and without separator at any position |
| `Keys.ParsePrint` | crates/af-swarm-state/src/lib.rs:78-100 | the parser recovers tenant, agent, kind and suffix from every key if and only if the tenant id does not end in a bar |
| `Keys.PrintInjective` | crates/af-swarm-state/src/lib.rs:78-100 | among such tenants different keys print different texts |
| `Keys.SameKey` | crates/af-swarm-state/src/lib.rs:78-100 | among all accepted ids two keys coincide if and only if kind and owner text do |
| `Keys.OwnersCollide` | crates/af-swarm-state/src/lib.rs:78-85 | two owners have one text if and only if they are equal or differ by one shifted bar |
| `Keys.ValidationGap` | crates/af-swarm-state/src/store.rs:66-78 | an accepted pair shares its keys with another accepted pair if and only if a check on the pair itself says so |
| `Keys.CheckpointScan` | crates/af-swarm-state/src/lib.rs:88-90 | listing by an agent's checkpoint prefix finds exactly the checkpoints with its owner text |
| `Keys.TenantScan` | crates/af-swarm-state/src/gc.rs:78 | exactly which keys listing by `tenant` and separator finds, shifted bars included |
| `Keys.ScansAreExact` | crates/af-swarm-state/src/gc.rs:78 | with tenants not ending in a bar both scans find precisely the tenant's keys and the agent's checkpoints |
| `Keys.CheckpointKeyOrder` | crates/af-swarm-state/src/lib.rs:87-90 | checkpoint keys sort as their numbers do, for all 64-bit numbers |
| `Text.PadIsFixed` | crates/af-swarm-state/src/lib.rs:89 | zero padding a decimal gives the fixed-width decimal |
| `Text.FixedOrder` | crates/af-swarm-state/src/lib.rs:89 | fixed-width decimals sort lexicographically as numbers |
| `Text.NumberOfFixed` | crates/af-swarm-state/src/lib.rs:89 | reading a fixed-width decimal gives the number back |
| `Namespace.HexRoundTrip` | crates/af-inference-client/src/namespace.rs:45 | decoding undoes lower-case hex encoding (section 8 of RFC 4648) |
| `Namespace.PrefixRoundTrip` | crates/af-inference-client/src/namespace.rs:37-57 | the prefix determines tenant, label, agent type and hash if and only if the tenant id has no colon |
| `Namespace.PrefixStart` | crates/af-inference-client/src/namespace.rs:38-57 | a prefix starts with the tenant and the label of its number, unknown numbers counting as unspecified |
| `Namespace.BuiltPrefixRoundTrip` | crates/af-inference-client/src/namespace.rs:15-47 | the prefix of a built key determines tenant, level, agent type and prompt hash if and only if the tenant id has no colon |
| `Namespace.BuiltPrefixesAgree` | crates/af-inference-client/src/namespace.rs:13-31 | built keys of colon-free tenants print one prefix if and only if all four agree, so two tenants never share one even if prompts collide |
| `Namespace.TenantsShareAPrefix` | crates/af-inference-client/src/namespace.rs:13-14 | two tenants have keys with one prefix if and only if one id continues the other with a label; never without colons |
| `Migrations.MigrationRegistry.Register` | crates/af-swarm-state/src/migrations.rs:66-69 | inserts under the source version, replacing an earlier step |
| `Migrations.MigrationRegistry.ApplyToLatest` | crates/af-swarm-state/src/migrations.rs:73-115 | the loop computes the answer that `Migrations.ApplyMeaning` says outright |
| `Migrations.ApplyMeaning` | crates/af-swarm-state/src/migrations.rs:78-115 | every answer: too new versions are refused as found; otherwise all steps up to some point of the chain succeeded and there the data is decoded, or that version has no step and is reported, or its step fails and its error is passed on |
| `Migrations.HaltsWithinLatest` | crates/af-swarm-state/src/migrations.rs:96-111 | if the chain of versions ends, the loop is over within `latest` iterations whatever the record |
| `Migrations.EndsWithinLatestOrNever` | crates/af-swarm-state/src/migrations.rs:96-111 | a chain that has not ended after `latest` steps never ends, by the pigeonhole principle |
| `Migrations.OnlyFailureEndsACycle` | crates/af-swarm-state/src/migrations.rs:96-111 | on a chain that does not end the loop neither decodes nor misses a step: only a failing step can stop it |
| `Migrations.HaltsExactlyWhenChainEnds` | crates/af-swarm-state/src/migrations.rs:96-111 | with succeeding steps the loop halts if and only if the chain ends |
| `Migrations.FailureCanComeLate` | crates/af-swarm-state/src/migrations.rs:107 | a step that fails on long records stops a cycling loop after exactly any chosen number of iterations |
| `Migrations.IncreasingHalts` | crates/af-swarm-state/src/migrations.rs:96-111 | with increasing steps the loop is over within `latest - version` iterations |
| `Migrations.WalkMeaning` | crates/af-swarm-state/src/migrations.rs:92-115 | a decoded result is the composition of the registered steps along the chain; a missing step is the first version of the chain without one; a failure is that of the first failing step |
| `Migrations.DecodedAtLatest` | crates/af-swarm-state/src/migrations.rs:96-111 | if no step passes the latest version, neither does the chain, so decoding means exactly that version |
| `Migrations.OneStepThenTheRest` | crates/af-swarm-state/src/migrations.rs:78-111 | migrating is one step and then migrating from its target, if and only if that step does not pass the latest version |
| `Budget.ClaudeBudgetGate.HasCapacity` | crates/af-inference-client/src/budget.rs:41-44 | the new counters and window; from 3600 seconds on yes if and only if the limits are positive, before that if and only if both counters are below their limits |
| `Budget.ClaudeBudgetGate.RecordUsage` | crates/af-inference-client/src/budget.rs:47-53 | both counters grow by the tokens, wrapping at 64 bits, and the accounts stay balanced |
| `Budget.ClaudeBudgetGate.MaybeResetWindow` | crates/af-inference-client/src/budget.rs:66-75 | from 3600 seconds on every counter is zeroed and the window restarts, before that nothing changes; the accounts stay balanced |
| `Budget.AddKeepsBalance` | crates/af-inference-client/src/budget.rs:47-53 | the two wrapping adds keep the global counter equal to the sum of the tenant counters modulo 2^64 |
| `BudgetRuns.WholeCheck` | crates/af-inference-client/src/budget.rs:41-64 | the steps of one undisturbed `has_capacity` change nothing but its answer, which is the one of the class |
| `BudgetRuns.WholeRecord` | crates/af-inference-client/src/budget.rs:47-53 | the two steps of one undisturbed `record_usage` have exactly the effect of the class method |
| `BudgetRuns.ResetKeepsOthersOut` | crates/af-inference-client/src/budget.rs:66-67 | while a reset holds the window lock no waiting request gets in, whatever the others do |
| `BudgetRuns.GlobalOvershoot` | crates/af-inference-client/src/budget.rs:41-75 | in every interleaving, across resets, with at most n requests in flight of at most m tokens each the global counter stays at or below limit - 1 + n*m, if that fits 64 bits |
| `BudgetRuns.FreshGlobalOvershoot` | crates/af-inference-client/src/budget.rs:41-75 | the same from a new gate |
| `BudgetRuns.TenantOvershoot` | crates/af-inference-client/src/budget.rs:59-64 | the same bound for every tenant |
| `BudgetRuns.FreshTenantOvershoot` | crates/af-inference-client/src/budget.rs:59-64 | the same from a new gate |
| `BudgetLimits.OvershootIsAttained` | crates/af-inference-client/src/budget.rs:41-53 | for every limit, n and m some run reaches the bound |
| `BudgetLimits.CountingAdmittedIsNotEnough` | crates/af-inference-client/src/budget.rs:41-44 | with requests counted only after `has_capacity`, one at a time reaches any multiple of m |
| `BudgetLimits.StepKeepsDrift` | crates/af-inference-client/src/budget.rs:47-53 | outside resets no step changes the global counter minus tenant sum minus half-recorded tokens, modulo 2^64 |
| `BudgetLimits.UsageConserved` | crates/af-inference-client/src/budget.rs:47-53 | so in every interleaving without resets the global counter exceeds the tenant sum by exactly the tokens of calls between their two adds |
| `BudgetLimits.WholeReset` | crates/af-inference-client/src/budget.rs:66-75 | the steps of an undisturbed reset zero every counter, as the class method does, and let its caller through |
| `BudgetLimits.ResetVisitsEveryCounter` | crates/af-inference-client/src/budget.rs:70-72 | a reset lets its caller through if and only if it has visited every counter |
| `BudgetLimits.ResetForgetsHalfRecorded` | crates/af-inference-client/src/budget.rs:66-75 | such a reset leaves the global counter short by exactly the tokens of calls between their two adds |

## Left out

- Migrations.MigrationRegistry.ApplyToLatest: the source loop has no bound; the method is cut off after a given number of iterations and says so by returning none. When the uncut loop ends is what `HaltsExactlyWhenChainEnds` and the lemmas around it say.
- Refinement.FreezeRefinesProtocol: a call is shown to be a run with nothing in between; that arbitrary interleavings of two calls are runs is built into the steps of `Protocol`, one per store access.
- Refinement.HydrateRefinesProtocol: the same; the listing of checkpoint keys and the reads of the checkpoints are one step of `Protocol`, so a checkpoint written or damaged in the middle of a recovery is not modelled.
- Freeze.AgentFreezeManager.Freeze: the memory version is unbounded, so the overflow of `version + 1` at 2^64 is not modelled.
- Budget.ClaudeBudgetGate.MaybeResetWindow: the new window starts at the clock reading that ended the old one; the source reads the clock again after the loop.
- BudgetRuns.GlobalOvershoot: only tokens recorded by a request that passed `has_capacity` first are in the runs; `record_usage` called on its own is covered by the class in `Budget` only.
- ProtocolRecovery.NewestCheckpointIsLast: whether checkpoint numbers may repeat is left to the clock; that overlapping freezes can order their checkpoints differently from their commits is why the runs are restricted to freezes that take turns.
- Protobuf encoding, SHA-256 and the Dapr transport: typed records are stored, and encoders and hash are arbitrary given functions.
- Decryption, tracing, metrics, retries and async scheduling.
- `delete`, `set_bulk`, the retention sweep and tenant erasure: no code calls the first two from the protocol and the bodies of the others are plans; `max_retained_checkpoints` is never read.
- Agent traits and lifecycle transitions, the inference client, the vector table schema and the database redesign described in the documents.
