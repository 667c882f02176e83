/** The schema migration walk: its registry, its loop, when the loop ends, and what it computes. */
module Migrations {
  import opened Outcomes
  import opened Records

  // One migration step.  The trait object of the source is its two versions and its function.
  datatype Migration = Migration(
    fromVersion: nat,
    toVersion: nat,
    migrateAgentState: Bytes -> Result<AgentStateRecord, StateError>)

  type Registry = map<nat, Migration>

  datatype RecordCodec = RecordCodec(
    encode: AgentStateRecord -> Bytes,
    decode: Bytes -> Result<AgentStateRecord, StateError>)

  // How a walk stands after a number of loop iterations.
  datatype Progress =
    | Decoded(result: Result<AgentStateRecord, StateError>)
    | TooNew(found: nat)
    | MissingStep(found: nat)
    | StepFailed(error: StateError)
    | Running(raw: Bytes, version: nat)

  /******* Specification *******/

  // The loop, allowed `fuel` iterations.
  function Walk(registry: Registry, codec: RecordCodec, latest: nat, raw: Bytes, version: nat, fuel: nat): Progress
    decreases fuel
  {
    if version >= latest then Decoded(codec.decode(raw))
    else if fuel == 0 then Running(raw, version)
    else if version !in registry then MissingStep(version)
    else match registry[version].migrateAgentState(raw)
      case Err(error) => StepFailed(error)
      case Ok(record) =>
        Walk(registry, codec, latest, codec.encode(record), registry[version].toVersion, fuel - 1)
  }

  function Apply(registry: Registry, codec: RecordCodec, latest: nat, raw: Bytes, current: nat, fuel: nat): Progress {
    if current > latest then TooNew(current)
    else if current == latest then Decoded(codec.decode(raw))
    else Walk(registry, codec, latest, raw, current, fuel)
  }

  // The result handed to the caller, if the walk has ended.
  function Answer(progress: Progress, latest: nat): Option<Result<AgentStateRecord, StateError>> {
    match progress
    case Decoded(result) => Some(result)
    case TooNew(found) => Some(Err(UnsupportedSchemaVersion(found, latest)))
    case MissingStep(found) => Some(Err(UnsupportedSchemaVersion(found, latest)))
    case StepFailed(error) => Some(Err(error))
    case Running(_, _) => None
  }

  /******* The registry *******/

  ghost predicate Keyed(registry: Registry) {
    forall v :: v in registry ==> registry[v].fromVersion == v
  }

  class MigrationRegistry {
    var migrations: Registry
    const codec: RecordCodec

    constructor (codec: RecordCodec)
      ensures migrations == map[] && this.codec == codec
    {
      migrations := map[];
      this.codec := codec;
    }

    // A later registration for the same source version replaces the earlier one.
    method Register(migration: Migration)
      requires Keyed(migrations)
      modifies this
      ensures migrations == old(migrations)[migration.fromVersion := migration]
      ensures Keyed(migrations)
    {
      migrations := migrations[migration.fromVersion := migration];
    }

    // The source loop runs until the version reaches `latest`; here it is cut off after `fuel`
    // iterations, and says so by returning None.
    method ApplyToLatest(raw: Bytes, currentVersion: nat, latest: nat, fuel: nat)
      returns (r: Option<Result<AgentStateRecord, StateError>>)
      ensures r == Answer(Apply(migrations, codec, latest, raw, currentVersion, fuel), latest)
    {
      if currentVersion > latest {
        return Some(Err(UnsupportedSchemaVersion(currentVersion, latest)));
      }
      if currentVersion == latest {
        return Some(codec.decode(raw));
      }
      var currentRaw: Bytes, version: nat, n: nat := raw, currentVersion, 0;
      while version < latest && n < fuel
        invariant n <= fuel
        invariant Walk(migrations, codec, latest, raw, currentVersion, fuel) ==
                  Walk(migrations, codec, latest, currentRaw, version, fuel - n)
        decreases fuel - n
      {
        if version !in migrations {
          return Some(Err(UnsupportedSchemaVersion(version, latest)));
        }
        var migration := migrations[version];
        match migration.migrateAgentState(currentRaw)
        case Err(error) =>
          return Some(Err(error));
        case Ok(record) =>
          currentRaw := codec.encode(record);
          version := migration.toVersion;
          n := n + 1;
      }
      if version < latest {
        return None;
      }
      return Some(codec.decode(currentRaw));
    }
  }

  /******* The chain of versions *******/

  // No step leads on from this version.
  predicate Ends(registry: Registry, latest: nat, version: nat) {
    version >= latest || version !in registry
  }

  // The version reached after n steps, staying put once the chain has ended.
  function VersionAfter(registry: Registry, latest: nat, version: nat, n: nat): nat
    decreases n
  {
    if n == 0 || Ends(registry, latest, version) then version
    else VersionAfter(registry, latest, registry[version].toVersion, n - 1)
  }

  // Some step count reaches the end of the chain; `latest` many are always enough.
  predicate ChainEnds(registry: Registry, latest: nat, version: nat) {
    Ends(registry, latest, VersionAfter(registry, latest, version, latest))
  }

  lemma {:induction false} VersionAfterSum(registry: Registry, latest: nat, v: nat, m: nat, n: nat)
    ensures VersionAfter(registry, latest, VersionAfter(registry, latest, v, m), n)
         == VersionAfter(registry, latest, v, m + n)
    decreases m
  {
    if m > 0 && !Ends(registry, latest, v) {
      VersionAfterSum(registry, latest, registry[v].toVersion, m - 1, n);
    }
  }

  // Of more than `bound` numbers below `bound`, two are equal.
  lemma {:induction false} Pigeonhole(s: seq<nat>, bound: nat) returns (i: nat, j: nat)
    requires |s| > bound && forall k | 0 <= k < |s| :: s[k] < bound
    ensures i < j < |s| && s[i] == s[j]
    decreases bound
  {
    assert s[0] < bound;
    if i, j :| 0 <= i < j < |s| && s[i] == s[j] == bound - 1 {
      return i, j;
    }
    // At most one element has the greatest value; leave it (or the first element) out.
    var p := if bound - 1 in s then IndexOf(s, bound - 1) else 0;
    var t := Without(s, p);
    forall k | 0 <= k < |t|
      ensures t[k] < bound - 1
    {
      assert s[if k < p then k else k + 1] < bound;
    }
    i, j := Pigeonhole(t, bound - 1);
    i, j := if i < p then i else i + 1, if j < p then j else j + 1;
  }

  function Without(s: seq<nat>, p: nat): (t: seq<nat>)
    requires p < |s|
    ensures |t| == |s| - 1 && forall k :: 0 <= k < |t| ==> t[k] == s[if k < p then k else k + 1]
  {
    s[..p] + s[p + 1..]
  }

  function IndexOf(s: seq<nat>, x: nat): (p: nat)
    requires x in s
    ensures p < |s| && s[p] == x
  {
    if s[0] == x then 0 else 1 + IndexOf(s[1..], x)
  }

  // A chain that visits one version twice goes round for ever.
  lemma {:induction false} CycleNeverEnds(registry: Registry, latest: nat, v: nat, i: nat, j: nat, n: nat)
    requires i < j && VersionAfter(registry, latest, v, i) == VersionAfter(registry, latest, v, j)
    requires !Ends(registry, latest, VersionAfter(registry, latest, v, j))
    ensures !Ends(registry, latest, VersionAfter(registry, latest, v, n))
    decreases n
  {
    if n <= j {
      VersionAfterSum(registry, latest, v, n, j - n);
    } else {
      VersionAfterSum(registry, latest, v, j, n - j);
      VersionAfterSum(registry, latest, v, i, n - j);
      CycleNeverEnds(registry, latest, v, i, j, n - (j - i));
    }
  }

  // If the chain is still below `latest` after `latest` steps it has closed a cycle.
  lemma StillBelowIsCycle(registry: Registry, latest: nat, v: nat, n: nat)
    requires forall k | 0 <= k <= latest :: VersionAfter(registry, latest, v, k) < latest
    requires !Ends(registry, latest, VersionAfter(registry, latest, v, latest))
             || (forall k | 0 <= k < latest :: !Ends(registry, latest, VersionAfter(registry, latest, v, k)))
    ensures !Ends(registry, latest, VersionAfter(registry, latest, v, n))
  {
    var s := seq(latest + 1, k requires 0 <= k <= latest => VersionAfter(registry, latest, v, k));
    var i, j := Pigeonhole(s, latest);
    if !Ends(registry, latest, VersionAfter(registry, latest, v, latest)) {
      VersionAfterSum(registry, latest, v, j, latest - j);
    }
    assert !Ends(registry, latest, VersionAfter(registry, latest, v, i));
    CycleNeverEnds(registry, latest, v, i, j, n);
  }

  // A chain that has not ended after `latest` steps never ends.
  lemma EndsWithinLatestOrNever(registry: Registry, latest: nat, v: nat, n: nat)
    requires !ChainEnds(registry, latest, v)
    ensures !Ends(registry, latest, VersionAfter(registry, latest, v, n))
  {
    forall k | 0 <= k <= latest
      ensures VersionAfter(registry, latest, v, k) < latest
    {
      VersionAfterSum(registry, latest, v, k, latest - k);
    }
    StillBelowIsCycle(registry, latest, v, n);
  }

  /******* Exact halting *******/

  // The walk follows the chain as long as it runs.
  lemma {:induction false} RunningFollowsChain(registry: Registry, codec: RecordCodec, latest: nat,
                                               raw: Bytes, v: nat, fuel: nat)
    ensures var p := Walk(registry, codec, latest, raw, v, fuel);
            && (p.Running? ==> p.version == VersionAfter(registry, latest, v, fuel) && p.version < latest
                               && DataAfter(registry, codec, latest, raw, v, fuel) == Ok(p.raw)
                               && forall k | 0 <= k < fuel :: !Ends(registry, latest, VersionAfter(registry, latest, v, k)))
            && (p.Decoded? || p.MissingStep? ==> Ends(registry, latest, VersionAfter(registry, latest, v, fuel)))
    decreases fuel
  {
    if !Ends(registry, latest, v) && fuel > 0 {
      var step := registry[v].migrateAgentState(raw);
      if step.Ok? {
        var w := registry[v].toVersion;
        RunningFollowsChain(registry, codec, latest, codec.encode(step.value), w, fuel - 1);
        assert forall k | 0 < k < fuel ::
          VersionAfter(registry, latest, v, k) == VersionAfter(registry, latest, w, k - 1);
      }
    }
  }

  // When the chain ends, the loop is over within `latest` iterations, whatever the record holds.
  lemma HaltsWithinLatest(registry: Registry, codec: RecordCodec, latest: nat, raw: Bytes, v: nat)
    requires ChainEnds(registry, latest, v)
    ensures !Walk(registry, codec, latest, raw, v, latest).Running?
  {
    var p := Walk(registry, codec, latest, raw, v, latest);
    RunningFollowsChain(registry, codec, latest, raw, v, latest);
    if p.Running? {
      StillBelowIsCycle(registry, latest, v, latest) by {
        assert forall k | 0 <= k < latest :: VersionAfter(registry, latest, v, k) < latest;
      }
      assert false;
    }
  }

  // When it does not, the loop never decodes a record and never misses a step: only a failing
  // migration can end it.
  lemma OnlyFailureEndsACycle(registry: Registry, codec: RecordCodec, latest: nat, raw: Bytes, v: nat, fuel: nat)
    requires !ChainEnds(registry, latest, v)
    ensures var p := Walk(registry, codec, latest, raw, v, fuel); p.Running? || p.StepFailed?
  {
    EndsWithinLatestOrNever(registry, latest, v, fuel);
    RunningFollowsChain(registry, codec, latest, raw, v, fuel);
    var p := Walk(registry, codec, latest, raw, v, fuel);
    NeverTooNew(registry, codec, latest, raw, v, fuel);
  }

  lemma {:induction false} NeverTooNew(registry: Registry, codec: RecordCodec, latest: nat, raw: Bytes, v: nat, fuel: nat)
    ensures !Walk(registry, codec, latest, raw, v, fuel).TooNew?
    decreases fuel
  {
    if !Ends(registry, latest, v) && fuel > 0 && registry[v].migrateAgentState(raw).Ok? {
      NeverTooNew(registry, codec, latest, codec.encode(registry[v].migrateAgentState(raw).value),
                  registry[v].toVersion, fuel - 1);
    }
  }

  ghost predicate StepsSucceed(registry: Registry) {
    forall v, raw :: v in registry ==> registry[v].migrateAgentState(raw).Ok?
  }

  lemma {:induction false} SucceedingStepsDoNotFail(registry: Registry, codec: RecordCodec, latest: nat, raw: Bytes,
                                                    v: nat, fuel: nat)
    requires StepsSucceed(registry)
    ensures !Walk(registry, codec, latest, raw, v, fuel).StepFailed?
    decreases fuel
  {
    if !Ends(registry, latest, v) && fuel > 0 {
      SucceedingStepsDoNotFail(registry, codec, latest, codec.encode(registry[v].migrateAgentState(raw).value),
                               registry[v].toVersion, fuel - 1);
    }
  }

  // With steps that always succeed, the loop halts exactly when the chain of versions ends.
  lemma HaltsExactlyWhenChainEnds(registry: Registry, codec: RecordCodec, latest: nat, raw: Bytes, v: nat)
    requires StepsSucceed(registry)
    ensures (exists fuel :: !Walk(registry, codec, latest, raw, v, fuel).Running?) <==> ChainEnds(registry, latest, v)
  {
    if ChainEnds(registry, latest, v) {
      HaltsWithinLatest(registry, codec, latest, raw, v);
    } else {
      forall fuel
        ensures Walk(registry, codec, latest, raw, v, fuel).Running?
      {
        OnlyFailureEndsACycle(registry, codec, latest, raw, v, fuel);
        SucceedingStepsDoNotFail(registry, codec, latest, raw, v, fuel);
      }
    }
  }

  // Without that, a step that looks at the record can stop a cycling loop after any number of
  // iterations, so `latest` iterations do not decide.
  function Grower(limit: nat): Migration {
    Migration(0, 0, (raw: Bytes) =>
      if |raw| >= limit then Err(ProtoError) else Ok(BodyRecord(raw + [0])))
  }

  function BodyRecord(body: Bytes): AgentStateRecord {
    AgentStateRecord(STATUS_FROZEN, None, None, "", [], 0, 0, body)
  }

  const BodyCodec: RecordCodec :=
    RecordCodec((record: AgentStateRecord) => record.body, (raw: Bytes) => Ok(BodyRecord(raw)))

  lemma {:induction false} FailureCanComeLate(limit: nat, raw: Bytes, fuel: nat)
    requires |raw| <= limit
    ensures var p := Walk(map[0 := Grower(limit)], BodyCodec, 1, raw, 0, fuel);
            && (fuel <= limit - |raw| ==> p.Running?)
            && (fuel > limit - |raw| ==> p == StepFailed(ProtoError))
    decreases fuel
  {
    if fuel > 0 && |raw| < limit {
      FailureCanComeLate(limit, raw + [0], fuel - 1);
    }
  }

  /******* Increasing steps *******/

  predicate Increasing(registry: Registry) {
    forall v :: v in registry ==> registry[v].toVersion > v
  }

  // Every step moves up, so the walk ends after at most as many steps as there are versions left.
  lemma {:induction false} IncreasingChainEnds(registry: Registry, latest: nat, v: nat, n: nat)
    requires Increasing(registry) && v + n >= latest
    ensures Ends(registry, latest, VersionAfter(registry, latest, v, n))
    decreases n
  {
    if !Ends(registry, latest, v) {
      IncreasingChainEnds(registry, latest, registry[v].toVersion, n - 1);
    }
  }

  lemma IncreasingHalts(registry: Registry, codec: RecordCodec, latest: nat, raw: Bytes, v: nat)
    requires Increasing(registry) && v <= latest
    ensures !Walk(registry, codec, latest, raw, v, latest - v).Running?
  {
    IncreasingChainEnds(registry, latest, v, latest - v);
    RunningFollowsChain(registry, codec, latest, raw, v, latest - v);
    if Walk(registry, codec, latest, raw, v, latest - v).Running? {
      IncreasingReaches(registry, latest, v, latest - v);
      assert false;
    }
  }

  lemma {:induction false} IncreasingReaches(registry: Registry, latest: nat, v: nat, n: nat)
    requires Increasing(registry)
    requires forall k | 0 <= k < n :: !Ends(registry, latest, VersionAfter(registry, latest, v, k))
    ensures VersionAfter(registry, latest, v, n) >= v + n
    decreases n
  {
    if n > 0 {
      assert VersionAfter(registry, latest, v, 0) == v;
      forall k | 0 <= k < n - 1
        ensures !Ends(registry, latest, VersionAfter(registry, latest, registry[v].toVersion, k))
      {
        assert VersionAfter(registry, latest, v, k + 1) == VersionAfter(registry, latest, registry[v].toVersion, k);
      }
      IncreasingReaches(registry, latest, registry[v].toVersion, n - 1);
    }
  }

  /******* What the walk computes *******/

  // The record after n steps of the chain, or the error of the first step that fails.
  function DataAfter(registry: Registry, codec: RecordCodec, latest: nat, raw: Bytes, v: nat, n: nat): Result<Bytes, StateError>
    decreases n
  {
    if n == 0 || Ends(registry, latest, v) then Ok(raw)
    else match registry[v].migrateAgentState(raw)
      case Err(error) => Err(error)
      case Ok(record) => DataAfter(registry, codec, latest, codec.encode(record), registry[v].toVersion, n - 1)
  }

  // A walk that decodes has composed the registered steps along the chain up to a version that is
  // at least `latest`; a walk that misses a step reports the first version of the chain without one.
  lemma {:induction false} WalkMeaning(registry: Registry, codec: RecordCodec, latest: nat, raw: Bytes, v: nat, fuel: nat)
    returns (n: nat)
    ensures n <= fuel
    ensures forall k | 0 <= k < n :: !Ends(registry, latest, VersionAfter(registry, latest, v, k))
    ensures var p := Walk(registry, codec, latest, raw, v, fuel);
            && (p.Decoded? ==>
                  && VersionAfter(registry, latest, v, n) >= latest
                  && DataAfter(registry, codec, latest, raw, v, n).Ok?
                  && p.result == codec.decode(DataAfter(registry, codec, latest, raw, v, n).value))
            && (p.MissingStep? ==>
                  && p.found == VersionAfter(registry, latest, v, n) && p.found < latest && p.found !in registry
                  && DataAfter(registry, codec, latest, raw, v, n).Ok?)
            && (p.StepFailed? ==> n < fuel && DataAfter(registry, codec, latest, raw, v, n).Ok?
                                  && DataAfter(registry, codec, latest, raw, v, n + 1) == Err(p.error))
    decreases fuel
  {
    n := 0;
    if !Ends(registry, latest, v) && fuel > 0 && registry[v].migrateAgentState(raw).Ok? {
      var w := registry[v].toVersion;
      n := WalkMeaning(registry, codec, latest, codec.encode(registry[v].migrateAgentState(raw).value), w, fuel - 1);
      n := n + 1;
      assert forall k | 0 < k <= n ::
        VersionAfter(registry, latest, v, k) == VersionAfter(registry, latest, w, k - 1);
    }
  }

  // The answer of a call, in terms of the registered steps: a version above the latest is refused as
  // it is; otherwise there is a point n of the chain up to which every step succeeded, and either the
  // chain has reached the latest version there and the data decodes or not, or no step leads on and
  // that version is reported, or the step that leads on fails and its error is passed on.  There is no
  // answer only if all the iterations allowed have succeeded and left the chain below the latest.
  lemma ApplyMeaning(registry: Registry, codec: RecordCodec, latest: nat, raw: Bytes, v: nat, fuel: nat)
    returns (n: nat)
    ensures n <= fuel
    ensures var r := Answer(Apply(registry, codec, latest, raw, v, fuel), latest);
            && (v > latest ==> r == Some(Err(UnsupportedSchemaVersion(v, latest))))
            && (r.None? ==> VersionAfter(registry, latest, v, fuel) < latest
                            && DataAfter(registry, codec, latest, raw, v, fuel).Ok?
                            && forall k | 0 <= k < fuel :: !Ends(registry, latest, VersionAfter(registry, latest, v, k)))
            && (v <= latest && r.Some? ==>
                  var reached, data := VersionAfter(registry, latest, v, n), DataAfter(registry, codec, latest, raw, v, n);
                  && (forall k | 0 <= k < n :: !Ends(registry, latest, VersionAfter(registry, latest, v, k)))
                  && data.Ok?
                  && (reached >= latest ==> r.value == codec.decode(data.value))
                  && (reached < latest && reached !in registry ==>
                        r.value == Err(UnsupportedSchemaVersion(reached, latest)))
                  && (reached < latest && reached in registry ==>
                        && registry[reached].migrateAgentState(data.value).Err?
                        && r.value == Err(registry[reached].migrateAgentState(data.value).error)))
  {
    n := 0;
    if v < latest {
      n := WalkMeaning(registry, codec, latest, raw, v, fuel);
      NeverTooNew(registry, codec, latest, raw, v, fuel);
      RunningFollowsChain(registry, codec, latest, raw, v, fuel);
      if DataAfter(registry, codec, latest, raw, v, n).Ok? { DataAfterNext(registry, codec, latest, raw, v, n); }
    }
  }

  // The data after one more step.
  lemma {:induction false} DataAfterNext(registry: Registry, codec: RecordCodec, latest: nat, raw: Bytes, v: nat, n: nat)
    requires DataAfter(registry, codec, latest, raw, v, n).Ok?
    ensures var w := VersionAfter(registry, latest, v, n);
            var data := DataAfter(registry, codec, latest, raw, v, n).value;
            DataAfter(registry, codec, latest, raw, v, n + 1) ==
            if Ends(registry, latest, w) then Ok(data)
            else match registry[w].migrateAgentState(data)
              case Err(error) => Err(error)
              case Ok(record) => Ok(codec.encode(record))
    decreases n
  {
    if n > 0 && !Ends(registry, latest, v) {
      var record := registry[v].migrateAgentState(raw).value;
      DataAfterNext(registry, codec, latest, codec.encode(record), registry[v].toVersion, n - 1);
    }
  }

  predicate NeverPast(registry: Registry, latest: nat) {
    forall v :: v in registry && v < latest ==> registry[v].toVersion <= latest
  }

  // If no step passes the latest version, decoding means that the chain reached exactly that version.
  lemma {:induction false} DecodedAtLatest(registry: Registry, latest: nat, v: nat, n: nat)
    requires NeverPast(registry, latest) && v <= latest
    ensures VersionAfter(registry, latest, v, n) <= latest
    decreases n
  {
    if n > 0 && !Ends(registry, latest, v) {
      DecodedAtLatest(registry, latest, registry[v].toVersion, n - 1);
    }
  }

  // Migrating from v is one step and then migrating from its target, exactly when that step does
  // not pass the latest version: the walk decodes a record that a fresh call would refuse as too new.
  lemma OneStepThenTheRest(registry: Registry, codec: RecordCodec, latest: nat, raw: Bytes, v: nat, fuel: nat)
    requires v < latest && v in registry && registry[v].migrateAgentState(raw).Ok?
    ensures var w := registry[v].toVersion;
            var next := codec.encode(registry[v].migrateAgentState(raw).value);
            Apply(registry, codec, latest, raw, v, fuel + 1) == Apply(registry, codec, latest, next, w, fuel)
            <==> w <= latest
  {
    var next := codec.encode(registry[v].migrateAgentState(raw).value);
    assert Apply(registry, codec, latest, raw, v, fuel + 1)
        == Walk(registry, codec, latest, next, registry[v].toVersion, fuel);
  }
}
