/**
 * The process-wide response cache of `my-resume-tool/api/analyze.js`: a JavaScript `Map`
 * from a fingerprint to `{value, timestamp}`, read with lazy expiry (`getCachedValue`)
 * and written with single eviction of the oldest key (`setCachedValue`).
 *
 * A JavaScript `Map` iterates its keys in insertion order; overwriting a key keeps its
 * position. The model keeps that order in `order` beside the `entries` map. The clock
 * (`Date.now()`) is the parameter `now`, in milliseconds.
 */
module Cache {
  import opened Wrappers

  /** One hour: the largest age, in milliseconds, at which an entry is still served. */
  const TTL: int := 1000 * 60 * 60
  /** The number of entries above which a write evicts one. */
  const MAX_ENTRIES: nat := 200

  datatype Entry<V> = Entry(value: V, timestamp: int)

  /** No key occurs twice. */
  ghost predicate Distinct(s: seq<string>)
  {
    forall i, j :: 0 <= i < j < |s| ==> s[i] != s[j]
  }

  /** The cache as a value: the keys in insertion order, and the entry stored under each. */
  datatype Table<V> = Table(order: seq<string>, entries: map<string, Entry<V>>)
  {
    /** Every key occurs once in the order, and the order holds exactly the stored keys. */
    ghost predicate Valid()
    {
      Distinct(order) && forall k :: k in entries <==> k in order
    }
  }

  /** The number of entries, `cache.size`. */
  function Size<V>(t: Table<V>): (n: nat)
  {
    |t.order|
  }

  /** At most `MAX_ENTRIES` entries. */
  ghost predicate Bounded<V>(t: Table<V>)
  {
    Size(t) <= MAX_ENTRIES
  }

  /** `s` with every occurrence of `k` taken out, the others kept in their order. */
  function Without(s: seq<string>, k: string): (r: seq<string>)
    ensures forall x :: x in r <==> x in s && x != k
    ensures k !in s ==> r == s
    ensures |r| <= |s|
    ensures Distinct(s) ==> Distinct(r)
    ensures Distinct(s) && k in s ==> |r| == |s| - 1
  {
    if s == [] then []
    else if s[0] == k then Without(s[1..], k)
    else
      var rest := Without(s[1..], k);
      assert Distinct(s) ==> s[0] !in rest;
      assert forall i :: 0 < i < |[s[0]] + rest| ==> ([s[0]] + rest)[i] == rest[i - 1];
      [s[0]] + rest
  }

  /** In a sequence without repeats, removing the key at position `i` closes the gap there. */
  lemma {:induction false} WithoutAt(s: seq<string>, i: nat)
    requires Distinct(s) && i < |s|
    ensures Without(s, s[i]) == s[..i] + s[i + 1..]
  {
    if i == 0 {
      assert s[0] !in s[1..];
    } else {
      WithoutAt(s[1..], i - 1);
      assert s[1..][i - 1] == s[i];
      assert s[1..][..i - 1] + s[1..][i..] == s[1..i] + s[i + 1..];
      assert s[..i] == [s[0]] + s[1..i];
    }
  }

  /** A sequence without repeats has as many elements as the set of its elements. */
  lemma {:induction false} DistinctCard(s: seq<string>)
    requires Distinct(s)
    ensures |set x | x in s| == |s|
  {
    if s != [] {
      DistinctCard(s[1..]);
      assert (set x | x in s) == {s[0]} + (set x | x in s[1..]);
      assert s[0] !in (set x | x in s[1..]);
    }
  }

  /** In a valid table the size read from the order is the number of stored entries. */
  lemma SizeIsEntryCount<V>(t: Table<V>)
    requires t.Valid()
    ensures |t.entries| == Size(t)
  {
    assert t.entries.Keys == set x | x in t.order;
    DistinctCard(t.order);
  }

  /** `cache.delete(key)`. */
  function Delete<V>(t: Table<V>, key: string): (r: Table<V>)
  {
    Table(Without(t.order, key), t.entries - {key})
  }

  /** Whether an entry read at `now` is older than the time to live. */
  predicate Expired<V>(e: Entry<V>, now: int)
  {
    now - e.timestamp > TTL
  }

  /**
   * `getCachedValue(key)` read at time `now`: the table afterwards and the value returned.
   * An expired entry is removed by the read that finds it.
   */
  function Lookup<V>(t: Table<V>, key: string, now: int): (res: (Table<V>, Option<V>))
  {
    if key !in t.entries then (t, None)
    else if Expired(t.entries[key], now) then (Delete(t, key), None)
    else (t, Some(t.entries[key].value))
  }

  /**
   * `setCachedValue(key, value)` at time `now`: a new key goes to the back of the order, an
   * existing one keeps its place; then, if the table holds more than `MAX_ENTRIES`, the first
   * key in order is deleted, unless it is the empty string (`if (oldestKey)`).
   */
  function Store<V>(t: Table<V>, key: string, value: V, now: int): (r: Table<V>)
  {
    var written := Table(if key in t.entries then t.order else t.order + [key],
                         t.entries[key := Entry(value, now)]);
    if Size(written) > MAX_ENTRIES && written.order[0] != "" then Delete(written, written.order[0])
    else written
  }

  // ----- Lookup -----

  /** A read keeps the table valid. */
  lemma LookupPreservesValid<V>(t: Table<V>, key: string, now: int)
    requires t.Valid()
    ensures Lookup(t, key, now).0.Valid()
  {
  }

  /** A read of a key that is not stored returns absent and changes nothing. */
  lemma LookupMiss<V>(t: Table<V>, key: string, now: int)
    requires key !in t.entries
    ensures Lookup(t, key, now) == (t, None)
  {
  }

  /**
   * A read of an entry older than the time to live (strictly) returns absent, removes that key
   * and only that key, keeps every other entry, and keeps the other keys in their order.
   */
  lemma LookupExpired<V>(t: Table<V>, key: string, now: int, i: nat)
    requires t.Valid() && i < |t.order| && t.order[i] == key
    requires now - t.entries[key].timestamp > TTL
    ensures Lookup(t, key, now).1 == None
    ensures Lookup(t, key, now).0.entries == t.entries - {key}
    ensures Lookup(t, key, now).0.order == t.order[..i] + t.order[i + 1..]
    ensures Size(Lookup(t, key, now).0) == Size(t) - 1
  {
    WithoutAt(t.order, i);
  }

  /** Once an expired entry has been read, a later read of the same key returns absent too. */
  lemma ExpiredStaysAbsent<V>(t: Table<V>, key: string, now: int, later: int)
    requires key in t.entries && Expired(t.entries[key], now)
    ensures Lookup(Lookup(t, key, now).0, key, later).1 == None
  {
  }

  /**
   * A read of an entry at most the time to live old returns its value and changes nothing:
   * neither its timestamp nor the order (no move to the back on a hit).
   */
  lemma LookupFresh<V>(t: Table<V>, key: string, now: int)
    requires key in t.entries && now - t.entries[key].timestamp <= TTL
    ensures Lookup(t, key, now) == (t, Some(t.entries[key].value))
  {
  }

  /** A read returns a value only if that value is stored under the key and is not expired. */
  lemma LookupSomeMeansFresh<V>(t: Table<V>, key: string, now: int)
    requires Lookup(t, key, now).1.Some?
    ensures key in t.entries
    ensures Lookup(t, key, now).1.value == t.entries[key].value
    ensures !Expired(t.entries[key], now)
  {
  }

  /** A read never adds keys and never changes a stored entry, and never makes the table larger. */
  lemma LookupOnlyShrinks<V>(t: Table<V>, key: string, now: int)
    ensures var after := Lookup(t, key, now).0;
      && after.entries.Keys <= t.entries.Keys
      && (forall k :: k in after.entries ==> after.entries[k] == t.entries[k])
      && Size(after) <= Size(t)
      && (key in t.entries && Expired(t.entries[key], now) ==> key !in after.entries)
  {
  }

  // ----- Store -----

  /** A write keeps the table valid. */
  lemma StorePreservesValid<V>(t: Table<V>, key: string, value: V, now: int)
    requires t.Valid()
    ensures Store(t, key, value, now).Valid()
  {
  }

  /**
   * A write to a table holding at most `MAX_ENTRIES` entries, none under the empty key,
   * leaves at most `MAX_ENTRIES`; and if the written key is not empty, the empty key is still absent.
   */
  lemma StoreBounded<V>(t: Table<V>, key: string, value: V, now: int)
    requires t.Valid() && Bounded(t) && "" !in t.entries
    ensures Bounded(Store(t, key, value, now))
    ensures key != "" ==> "" !in Store(t, key, value, now).entries
  {
  }

  /**
   * Overwriting a stored key in a bounded table replaces its value and timestamp, keeps the
   * order as it was and evicts nothing.
   */
  lemma StoreOverwrite<V>(t: Table<V>, key: string, value: V, now: int)
    requires t.Valid() && Bounded(t) && key in t.entries
    ensures Store(t, key, value, now) == Table(t.order, t.entries[key := Entry(value, now)])
  {
  }

  /** Adding a new key to a table that is not full appends it and evicts nothing. */
  lemma StoreNewNotFull<V>(t: Table<V>, key: string, value: V, now: int)
    requires key !in t.entries && Size(t) < MAX_ENTRIES
    ensures Store(t, key, value, now) == Table(t.order + [key], t.entries[key := Entry(value, now)])
  {
  }

  /**
   * Adding a new key to a full table evicts exactly one entry, the earliest inserted; every
   * other entry keeps its value and the remaining keys keep their relative order.
   */
  lemma StoreNewFullEvictsOldest<V>(t: Table<V>, key: string, value: V, now: int)
    requires t.Valid() && key !in t.entries && Size(t) == MAX_ENTRIES && t.order[0] != ""
    ensures var after := Store(t, key, value, now);
      && after.order == t.order[1..] + [key]
      && after.entries.Keys == t.entries.Keys - {t.order[0]} + {key}
      && after.entries[key] == Entry(value, now)
      && (forall k :: k in after.entries && k != key ==> after.entries[k] == t.entries[k])
      && Size(after) == Size(t)
  {
  }

  /**
   * The guard `if (oldestKey)` skips eviction when the oldest key is the empty string: a
   * full table whose first key is empty grows past `MAX_ENTRIES` on the next new key.
   */
  lemma EmptyOldestKeyBlocksEviction<V>(t: Table<V>, key: string, value: V, now: int)
    requires t.Valid() && key !in t.entries && Size(t) == MAX_ENTRIES && t.order[0] == ""
    ensures Size(Store(t, key, value, now)) == MAX_ENTRIES + 1
  {
  }

  /** After a write the key is stored with the new value, unless its own write evicted it. */
  lemma StoreThenStored<V>(t: Table<V>, key: string, value: V, now: int)
    requires t.Valid() && Bounded(t)
    ensures key in Store(t, key, value, now).entries
    ensures Store(t, key, value, now).entries[key] == Entry(value, now)
  {
  }

  /** Reading right after a write, within the time to live, returns the value written. */
  lemma HitAfterSet<V>(t: Table<V>, key: string, value: V, now: int, later: int)
    requires t.Valid() && Bounded(t)
    requires later - now <= TTL
    ensures Lookup(Store(t, key, value, now), key, later) == (Store(t, key, value, now), Some(value))
  {
  }

  /** A write of one key does not make another key that was absent readable. */
  lemma NoCrossContamination<V>(t: Table<V>, k1: string, k2: string, v2: V, now: int, later: int)
    requires k1 != k2 && k1 !in t.entries
    ensures Lookup(Store(t, k2, v2, now), k1, later).1 == None
  {
  }

  /** A write adds no key other than its own and changes no other entry. */
  lemma StoreTouchesOnlyItsKey<V>(t: Table<V>, key: string, value: V, now: int)
    ensures var after := Store(t, key, value, now);
      && after.entries.Keys <= t.entries.Keys + {key}
      && (forall k :: k in after.entries && k != key ==> after.entries[k] == t.entries[k])
  {
  }

  /**
   * The module-level `cache` with the two operations that mutate it in place.
   */
  class ResponseCache<V> {
    /** The keys in insertion order, as `cache.keys()` yields them. */
    var order: seq<string>
    /** The entry stored under each key. */
    var entries: map<string, Entry<V>>

    function Snapshot(): Table<V>
      reads this
    {
      Table(order, entries)
    }

    ghost predicate Valid()
      reads this
    {
      Snapshot().Valid()
    }

    /** `new Map()`: an empty cache. */
    constructor ()
      ensures Valid()
      ensures order == [] && entries == map[]
    {
      order := [];
      entries := map[];
    }

    /** `cache.delete(key)` on the fields. */
    method DeleteKey(key: string)
      requires Valid()
      modifies this
      ensures Valid()
      ensures Snapshot() == Delete(old(Snapshot()), key)
    {
      order := Without(order, key);
      entries := entries - {key};
    }

    /** `getCachedValue(key)` with `Date.now()` read as `now`. */
    method GetCachedValue(key: string, now: int) returns (r: Option<V>)
      requires Valid()
      modifies this
      ensures Valid()
      ensures (Snapshot(), r) == Lookup(old(Snapshot()), key, now)
    {
      if key !in entries {
        return None;
      }
      var entry := entries[key];
      if now - entry.timestamp > TTL {
        DeleteKey(key);
        return None;
      }
      return Some(entry.value);
    }

    /** `setCachedValue(key, value)` with `Date.now()` read as `now`. */
    method SetCachedValue(key: string, value: V, now: int)
      requires Valid()
      modifies this
      ensures Valid()
      ensures Snapshot() == Store(old(Snapshot()), key, value, now)
      ensures old(Bounded(Snapshot())) && "" !in old(entries) ==> Bounded(Snapshot())
    {
      ghost var before := Snapshot();
      StorePreservesValid(before, key, value, now);
      if "" !in entries && Bounded(before) {
        StoreBounded(before, key, value, now);
      }
      if key !in entries {
        order := order + [key];
      }
      entries := entries[key := Entry(value, now)];
      if |order| > MAX_ENTRIES {
        var oldestKey := order[0];
        if oldestKey != "" {
          DeleteKey(oldestKey);
        }
      }
    }
  }
}
