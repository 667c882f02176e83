/** The Dapr state store: keys, ETags and conditional writes. */
module StateStore {
  import opened Outcomes
  import opened Records

  type ETag = nat

  // Typed records in place of their protobuf bytes.
  datatype Value =
    | StateValue(state: AgentStateRecord)
    | MemoryValue(memory: WorkingMemoryRecord)
    | CheckpointValue(checkpoint: CheckpointRecord)
    | OtherValue(bytes: Bytes)

  datatype TtlPolicy = NoTtl | Seconds(secs: nat)

  datatype Entry = Entry(value: Value, etag: ETag, ttl: TtlPolicy)

  type Entries = map<string, Entry>

  // The contents of a store; every successful write takes the ETag `next`.
  datatype Kv = Kv(entries: Entries, next: ETag)

  ghost predicate TagsFresh(kv: Kv) {
    forall k :: k in kv.entries ==> kv.entries[k].etag < kv.next
  }

  // May a write guarded by `etag` go through?  No guard always may; an absent key matches no ETag.
  predicate Passes(kv: Kv, key: string, etag: Option<ETag>) {
    etag.Some? ==> key in kv.entries && kv.entries[key].etag == etag.value
  }

  function Written(kv: Kv, key: string, value: Value, ttl: TtlPolicy): Kv {
    Kv(kv.entries[key := Entry(value, kv.next, ttl)], kv.next + 1)
  }

  function Put(kv: Kv, key: string, value: Value, etag: Option<ETag>, ttl: TtlPolicy, up: bool)
    : (Kv, Result<ETag, StateError>)
  {
    if !up then (kv, Err(DaprError))
    else if !Passes(kv, key, etag) then (kv, Err(ETagConflict(key)))
    else (Written(kv, key, value, ttl), Ok(kv.next))
  }

  class DaprStateStore {
    var entries: Entries
    var nextTag: ETag

    ghost function Contents(): Kv
      reads this
    {
      Kv(entries, nextTag)
    }

    constructor ()
      ensures Contents() == Kv(map[], 0)
    {
      entries, nextTag := map[], 0;
    }

    method Get(key: string) returns (r: Option<Entry>)
      ensures r.Some? <==> key in entries
      ensures r.Some? ==> r.value == entries[key]
    {
      if key in entries {
        return Some(entries[key]);
      }
      return None;
    }

    // `up` says whether the store can be reached.
    method Set(key: string, value: Value, etag: Option<ETag>, ttl: TtlPolicy, up: bool)
      returns (r: Result<ETag, StateError>)
      modifies this
      ensures (Contents(), r) == Put(old(Contents()), key, value, etag, ttl, up)
      ensures r.Ok? <==> up && (etag.None? || (key in old(entries) && old(entries)[key].etag == etag.value))
      ensures r.Ok? ==> r.value == old(nextTag) && nextTag == old(nextTag) + 1
                        && entries == old(entries)[key := Entry(value, r.value, ttl)]
      ensures r.Err? ==> r.error == (if up then ETagConflict(key) else DaprError)
                         && entries == old(entries) && nextTag == old(nextTag)
      ensures old(TagsFresh(Contents())) ==> TagsFresh(Contents())
    {
      if !up {
        return Err(DaprError);
      }
      if etag.Some? && (key !in entries || entries[key].etag != etag.value) {
        return Err(ETagConflict(key));
      }
      entries := entries[key := Entry(value, nextTag, ttl)];
      r := Ok(nextTag);
      nextTag := nextTag + 1;
    }

    // Every key with the prefix, each once, in no particular order.
    method ListKeysWithPrefix(prefix: string) returns (keys: seq<string>)
      ensures forall k :: k in keys <==> k in entries && prefix <= k
      ensures forall i, j :: 0 <= i < j < |keys| ==> keys[i] != keys[j]
    {
      keys := [];
      var rest := entries.Keys;
      while rest != {}
        invariant rest <= entries.Keys
        invariant forall k :: k in keys <==> k in entries && k !in rest && prefix <= k
        invariant forall i, j :: 0 <= i < j < |keys| ==> keys[i] != keys[j]
        decreases |rest|
      {
        var k :| k in rest;
        rest := rest - {k};
        if prefix <= k {
          keys := keys + [k];
        }
      }
    }

    // The store drops a record whose time to live is over; records without one are kept.
    method Expire(key: string)
      modifies `entries
      ensures entries == if key in old(entries) && old(entries)[key].ttl.Seconds?
                         then old(entries) - {key} else old(entries)
    {
      if key in entries && entries[key].ttl.Seconds? {
        entries := entries - {key};
      }
    }
  }
}
