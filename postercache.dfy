/**
 * `_poster_cache_get` and `_poster_cache_set`: poster lookups kept by key,
 * each stamped with the time it was stored and dropped lazily, on the
 * first read after it is more than `POSTER_CACHE_TTL_SECONDS` old.
 */
module PosterCache {
  import opened Wrappers

  const PosterCacheTtlSeconds := 7 * 24 * 3600

  /** The JSON-like values a poster payload holds. */
  datatype Field = Flag(b: bool) | Text(s: string) | Number(n: int) | Null

  type Payload = map<string, Field>

  const StampKey := "ts"

  /** `v.get("ts", 0)`. */
  function Stamp(v: Payload): int
  {
    if StampKey in v && v[StampKey].Number? then v[StampKey].n else 0
  }

  predicate IsExpired(v: Payload, now: int)
  {
    now - Stamp(v) > PosterCacheTtlSeconds
  }

  /** A read: the value returned and the cache afterwards. */
  function Lookup(entries: map<string, Payload>, key: string, now: int): (Option<Payload>, map<string, Payload>)
  {
    if key !in entries || entries[key] == map[] then (None, entries)
    else if IsExpired(entries[key], now) then (None, entries - {key})
    else (Some(entries[key]), entries)
  }

  /** A write: a copy of the payload, stamped with `now`. */
  function Store(entries: map<string, Payload>, key: string, payload: Payload, now: int): map<string, Payload>
  {
    entries[key := payload[StampKey := Number(now)]]
  }

  /** A read returns the stored payload exactly when it is present, non-empty and not expired; exactly a present, non-empty, expired entry is removed. */
  lemma LookupCases(entries: map<string, Payload>, key: string, now: int)
    ensures var (r, after) := Lookup(entries, key, now);
      && (r.Some? <==> key in entries && entries[key] != map[] && !IsExpired(entries[key], now))
      && (r.Some? ==> r.value == entries[key])
      && (key in entries && entries[key] != map[] && IsExpired(entries[key], now) ==> after == entries - {key})
      && (!(key in entries && entries[key] != map[] && IsExpired(entries[key], now)) ==> after == entries)
      && (forall k :: k != key ==> (k in after <==> k in entries) && (k in after ==> after[k] == entries[k]))
  {
  }

  /** A write changes only its own key, and the stored copy carries the stamp and every other field of the payload. */
  lemma StoreChangesOnlyKey(entries: map<string, Payload>, key: string, payload: Payload, now: int)
    ensures var after := Store(entries, key, payload, now);
      && key in after && Stamp(after[key]) == now
      && (forall f :: f != StampKey ==> (f in after[key] <==> f in payload) && (f in payload ==> after[key][f] == payload[f]))
      && (forall k :: k != key ==> (k in after <==> k in entries) && (k in after ==> after[k] == entries[k]))
  {
  }

  /** A read within the TTL of a write returns what was written and changes nothing. */
  lemma ReadAfterWrite(entries: map<string, Payload>, key: string, payload: Payload, now: int, later: int)
    requires later - now <= PosterCacheTtlSeconds
    ensures var stored := Store(entries, key, payload, now);
      Lookup(stored, key, later) == (Some(payload[StampKey := Number(now)]), stored)
  {
    var stored := Store(entries, key, payload, now);
    assert StampKey in stored[key];
  }

  /** A read more than the TTL after a write returns nothing and evicts the entry. */
  lemma ReadAfterExpiry(entries: map<string, Payload>, key: string, payload: Payload, now: int, later: int)
    requires later - now > PosterCacheTtlSeconds
    ensures var stored := Store(entries, key, payload, now);
      Lookup(stored, key, later) == (None, stored - {key})
  {
    var stored := Store(entries, key, payload, now);
    assert StampKey in stored[key];
  }

  /** Reading twice at the same moment gives the same answer and the same cache. */
  lemma LookupIdempotent(entries: map<string, Payload>, key: string, now: int)
    ensures var (r, after) := Lookup(entries, key, now);
      Lookup(after, key, now) == (r, after)
  {
  }

  /** The in-memory `_poster_cache`. */
  class Cache {
    var entries: map<string, Payload>

    constructor ()
      ensures entries == map[]
    {
      entries := map[];
    }

    /** `_poster_cache_get(key)` at time `now`. */
    method Get(key: string, now: int) returns (r: Option<Payload>)
      modifies this
      ensures (r, entries) == Lookup(old(entries), key, now)
    {
      if key !in entries || entries[key] == map[] {
        return None;
      }
      var v := entries[key];
      if now - Stamp(v) > PosterCacheTtlSeconds {
        entries := entries - {key};
        return None;
      }
      return Some(v);
    }

    /** `_poster_cache_set(key, payload)` at time `now`. */
    method Set(key: string, payload: Payload, now: int)
      modifies this
      ensures entries == Store(old(entries), key, payload, now)
    {
      var copy := payload[StampKey := Number(now)];
      entries := entries[key := copy];
    }
  }
}
