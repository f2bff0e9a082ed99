/**
 * Properties of the cache across a sequence of calls: what `setCachedValue` promises to a
 * `getCachedValue` that happens later, after other reads and writes.
 */
module CacheTrace {
  import opened Wrappers
  import opened Cache

  /** One call on the cache, with the clock reading it sees. */
  datatype Op<V> = Get(key: string, now: int) | Set(key: string, value: V, now: int)

  /** The table after one call. */
  function Step<V>(t: Table<V>, op: Op<V>): (r: Table<V>)
  {
    match op
    case Get(k, now) => Lookup(t, k, now).0
    case Set(k, v, now) => Store(t, k, v, now)
  }

  /** The table after the calls in order. */
  function Run<V>(t: Table<V>, ops: seq<Op<V>>): (r: Table<V>)
    decreases |ops|
  {
    if ops == [] then t else Run(Step(t, ops[0]), ops[1..])
  }

  /** `key` is still stored after every one of the calls: no eviction and no expiry removed it. */
  ghost predicate Survives<V>(t: Table<V>, ops: seq<Op<V>>, key: string)
    decreases |ops|
  {
    ops == [] || (key in Step(t, ops[0]).entries && Survives(Step(t, ops[0]), ops[1..], key))
  }

  /** None of the calls writes `key`. */
  ghost predicate NoWriteOf<V>(ops: seq<Op<V>>, key: string)
  {
    forall i :: 0 <= i < |ops| ==> ops[i].Get? || ops[i].key != key
  }

  /** A valid table stays valid through any calls. */
  lemma {:induction false} RunPreservesValid<V>(t: Table<V>, ops: seq<Op<V>>)
    requires t.Valid()
    ensures Run(t, ops).Valid()
    decreases |ops|
  {
    if ops != [] {
      match ops[0] {
        case Get(k, now) => LookupPreservesValid(t, k, now);
        case Set(k, v, now) => StorePreservesValid(t, k, v, now);
      }
      RunPreservesValid(Step(t, ops[0]), ops[1..]);
    }
  }

  /**
   * Calls that do not write `key` and do not remove it leave its entry exactly as it was:
   * reads do not refresh the timestamp and writes of other keys do not touch it.
   */
  lemma {:induction false} EntryKeptThrough<V>(t: Table<V>, ops: seq<Op<V>>, key: string)
    requires key in t.entries
    requires Survives(t, ops, key) && NoWriteOf(ops, key)
    ensures key in Run(t, ops).entries
    ensures Run(t, ops).entries[key] == t.entries[key]
    decreases |ops|
  {
    if ops != [] {
      var next := Step(t, ops[0]);
      match ops[0] {
        case Get(k, now) => LookupOnlyShrinks(t, k, now);
        case Set(k, v, now) =>
          assert k != key by { assert ops[0].Set? && ops[0].key == k; }
          StoreTouchesOnlyItsKey(t, k, v, now);
      }
      assert next.entries[key] == t.entries[key];
      assert NoWriteOf(ops[1..], key) by {
        forall i | 0 <= i < |ops[1..]| ensures ops[1..][i].Get? || ops[1..][i].key != key {
          assert ops[1..][i] == ops[i + 1];
        }
      }
      EntryKeptThrough(next, ops[1..], key);
    }
  }

  /**
   * Hit after set: `set(key, value)` at `now`, then any calls that neither write `key` nor
   * evict or expire it, then `get(key)` at a time at most `TTL` after `now`, returns `value`.
   */
  lemma HitAfterSetThrough<V>(t: Table<V>, key: string, value: V, now: int,
                              ops: seq<Op<V>>, later: int)
    requires t.Valid() && Bounded(t)
    requires Survives(Store(t, key, value, now), ops, key) && NoWriteOf(ops, key)
    requires later - now <= TTL
    ensures Lookup(Run(Store(t, key, value, now), ops), key, later).1 == Some(value)
  {
    StoreThenStored(t, key, value, now);
    EntryKeptThrough(Store(t, key, value, now), ops, key);
  }

  /** No write among the calls evicts `key`. */
  ghost predicate NoSetEvicts<V>(t: Table<V>, ops: seq<Op<V>>, key: string)
    decreases |ops|
  {
    ops == [] ||
    ((ops[0].Set? ==> key in Step(t, ops[0]).entries) && NoSetEvicts(Step(t, ops[0]), ops[1..], key))
  }

  /** Every read of `key` among the calls happens no later than `deadline`. */
  ghost predicate ReadsBy<V>(ops: seq<Op<V>>, key: string, deadline: int)
  {
    forall i :: 0 <= i < |ops| ==> ops[i].Set? || ops[i].key != key || ops[i].now <= deadline
  }

  /**
   * An entry written at `stamp` survives calls that do not write it, whose writes do not
   * evict it, and whose reads of it come at most `TTL` after `stamp`.
   */
  lemma {:induction false} SurvivesByClock<V>(t: Table<V>, ops: seq<Op<V>>, key: string, stamp: int)
    requires key in t.entries && t.entries[key].timestamp == stamp
    requires NoWriteOf(ops, key) && NoSetEvicts(t, ops, key) && ReadsBy(ops, key, stamp + TTL)
    ensures Survives(t, ops, key)
    decreases |ops|
  {
    if ops != [] {
      var next := Step(t, ops[0]);
      match ops[0] {
        case Get(k, now) =>
          assert k == key ==> now <= stamp + TTL by { assert ops[0].Get? && ops[0].key == k; }
          LookupOnlyShrinks(t, k, now);
        case Set(k, v, now) =>
          assert k != key by { assert ops[0].Set? && ops[0].key == k; }
          StoreTouchesOnlyItsKey(t, k, v, now);
      }
      assert key in next.entries && next.entries[key] == t.entries[key];
      assert NoWriteOf(ops[1..], key) && ReadsBy(ops[1..], key, stamp + TTL) by {
        forall i | 0 <= i < |ops[1..]|
          ensures ops[1..][i].Get? || ops[1..][i].key != key
          ensures ops[1..][i].Set? || ops[1..][i].key != key || ops[1..][i].now <= stamp + TTL
        {
          assert ops[1..][i] == ops[i + 1];
        }
      }
      SurvivesByClock(next, ops[1..], key, stamp);
    }
  }

  /**
   * Hit after set, with the clock: `set(key, value)` at `now`, then calls that do not write `key`,
   * none of whose writes evicts it and whose reads of it come by `now + TTL`, then `get(key)`
   * at most `TTL` after `now` returns `value`.
   */
  lemma HitAfterSetByClock<V>(t: Table<V>, key: string, value: V, now: int,
                              ops: seq<Op<V>>, later: int)
    requires t.Valid() && Bounded(t)
    requires NoWriteOf(ops, key) && NoSetEvicts(Store(t, key, value, now), ops, key)
    requires ReadsBy(ops, key, now + TTL)
    requires later - now <= TTL
    ensures Lookup(Run(Store(t, key, value, now), ops), key, later).1 == Some(value)
  {
    StoreThenStored(t, key, value, now);
    SurvivesByClock(Store(t, key, value, now), ops, key, now);
    HitAfterSetThrough(t, key, value, now, ops, later);
  }

  /** A read of `key` that finds it expired is absent at every later read, until `key` is written again. */
  lemma {:induction false} ExpiredAbsentUntilWritten<V>(t: Table<V>, key: string, now: int,
                                                     ops: seq<Op<V>>)
    requires key in t.entries && Expired(t.entries[key], now)
    requires NoWriteOf(ops, key)
    ensures key !in Run(Lookup(t, key, now).0, ops).entries
  {
    AbsentStaysAbsent(Lookup(t, key, now).0, ops, key);
  }

  /** A key that is not stored is not stored after calls none of which writes it. */
  lemma {:induction false} AbsentStaysAbsent<V>(t: Table<V>, ops: seq<Op<V>>, key: string)
    requires key !in t.entries && NoWriteOf(ops, key)
    ensures key !in Run(t, ops).entries
    decreases |ops|
  {
    if ops != [] {
      match ops[0] {
        case Get(k, now) => LookupOnlyShrinks(t, k, now);
        case Set(k, v, now) =>
          assert k != key by { assert ops[0].Set? && ops[0].key == k; }
          StoreTouchesOnlyItsKey(t, k, v, now);
      }
      assert NoWriteOf(ops[1..], key) by {
        forall i | 0 <= i < |ops[1..]| ensures ops[1..][i].Get? || ops[1..][i].key != key {
          assert ops[1..][i] == ops[i + 1];
        }
      }
      AbsentStaysAbsent(Step(t, ops[0]), ops[1..], key);
    }
  }

  /** Calls on a bounded table that hold no empty key and write no empty key keep it bounded. */
  lemma {:induction false} RunBounded<V>(t: Table<V>, ops: seq<Op<V>>)
    requires t.Valid() && Bounded(t) && "" !in t.entries
    requires forall i :: 0 <= i < |ops| ==> ops[i].key != ""
    ensures Bounded(Run(t, ops))
    decreases |ops|
  {
    if ops != [] {
      match ops[0] {
        case Get(k, now) =>
          LookupPreservesValid(t, k, now);
          LookupOnlyShrinks(t, k, now);
        case Set(k, v, now) =>
          StorePreservesValid(t, k, v, now);
          StoreBounded(t, k, v, now);
      }
      assert forall i :: 0 <= i < |ops[1..]| ==> ops[1..][i].key != "" by {
        forall i | 0 <= i < |ops[1..]| ensures ops[1..][i].key != "" {
          assert ops[1..][i] == ops[i + 1];
        }
      }
      RunBounded(Step(t, ops[0]), ops[1..]);
    }
  }
}
