/** The two-tier cache of `src/data/cache.ts`: a memory map in front of a
    persistent key-value store. The store is a map that may be unreachable
    (every access throws) and whose text under a key may not parse back
    into an entry; a successful parse yields the entry that was written.
    The clock is a parameter. */
module Cache {
  import opened Wrappers

  /** A cached value and the time it was saved, in milliseconds. */
  datatype Entry<V> = Entry(value: V, savedAt: int)

  /** What the store holds under a key: an entry that parses back, or text
      that does not (empty, not JSON, or JSON without a usable `savedAt`). */
  datatype Stored<V> = Intact(entry: Entry<V>) | Garbled

  /** The age check of both tiers; an age equal to the limit still counts. */
  predicate Fresh<V>(e: Entry<V>, maxAge: int, now: int) {
    now - e.savedAt <= maxAge
  }

  /** What a lookup returns, and the memory tier after it. */
  datatype Lookup<V> = Lookup(result: Option<V>, memory: map<string, Entry<V>>)

  /** `getCached`: a fresh memory entry first; otherwise a fresh store entry,
      which is promoted into memory; otherwise nothing. A store that cannot
      be read counts as a miss. */
  function GetSpec<V>(memory: map<string, Entry<V>>, store: map<string, Stored<V>>, storeAvailable: bool,
                      key: string, maxAge: int, now: int): (l: Lookup<V>)
    ensures l.result.Some? ==>
      || (key in memory && Fresh(memory[key], maxAge, now) && l.result.value == memory[key].value)
      || (storeAvailable && key in store && store[key].Intact? && Fresh(store[key].entry, maxAge, now)
          && l.result.value == store[key].entry.value)
    ensures l.memory.Keys == memory.Keys + (if l.memory == memory then {} else {key})
    ensures forall k :: k in memory && k != key ==> l.memory[k] == memory[k]
  {
    if key in memory && Fresh(memory[key], maxAge, now) then Lookup(Some(memory[key].value), memory)
    else if !storeAvailable || key !in store then Lookup(None, memory)
    else match store[key]
      case Garbled => Lookup(None, memory)
      case Intact(e) =>
        if Fresh(e, maxAge, now) then Lookup(Some(e.value), memory[key := e]) else Lookup(None, memory)
  }

  class TwoTierCache<V> {
    /** The module-level `memoryCache`. */
    var memory: map<string, Entry<V>>
    /** The persistent store. */
    var store: map<string, Stored<V>>
    /** Whether the persistent store can be reached at all. */
    var storeAvailable: bool

    constructor(initialStore: map<string, Stored<V>>, available: bool)
      ensures memory == map[] && store == initialStore && storeAvailable == available
    {
      memory := map[];
      store := initialStore;
      storeAvailable := available;
    }

    method GetCached(key: string, maxAge: int, now: int) returns (r: Option<V>)
      modifies this
      ensures Lookup(r, memory) == GetSpec(old(memory), old(store), old(storeAvailable), key, maxAge, now)
      ensures store == old(store) && storeAvailable == old(storeAvailable)
    {
      if key in memory && now - memory[key].savedAt <= maxAge {
        return Some(memory[key].value);
      }
      if !storeAvailable || key !in store {
        return None;
      }
      var raw := store[key];
      if raw.Garbled? {
        return None;
      }
      var parsed := raw.entry;
      if now - parsed.savedAt <= maxAge {
        memory := memory[key := parsed];
        return Some(parsed.value);
      }
      return None;
    }

    /** `setCached`; `writeSucceeds` says whether the store accepts the
      write (it may be full). A failed write is ignored. */
    method SetCached(key: string, value: V, now: int, writeSucceeds: bool)
      modifies this
      ensures memory == old(memory)[key := Entry(value, now)]
      ensures store == if old(storeAvailable) && writeSucceeds
                       then old(store)[key := Intact(Entry(value, now))] else old(store)
      ensures storeAvailable == old(storeAvailable)
    {
      var entry := Entry(value, now);
      memory := memory[key := entry];
      if storeAvailable && writeSucceeds {
        store := store[key := Intact(entry)];
      }
    }
  }

  /** A value set at time `t` is found in memory by any lookup at a time no
      more than `maxAge` later, whatever the store holds. */
  lemma SetThenGet<V>(memory: map<string, Entry<V>>, store: map<string, Stored<V>>, available: bool,
                      key: string, value: V, t: int, maxAge: int, now: int)
    requires now - t <= maxAge
    ensures var m := memory[key := Entry(value, t)];
      GetSpec(m, store, available, key, maxAge, now) == Lookup(Some(value), m)
  {
  }

  /** The entry saved exactly `maxAge` ago is still served; one
      millisecond later it is not. */
  lemma FreshBoundary<V>(e: Entry<V>, maxAge: int)
    ensures Fresh(e, maxAge, e.savedAt + maxAge)
    ensures !Fresh(e, maxAge, e.savedAt + maxAge + 1)
  {
  }

  /** A fresh memory entry is returned without looking at the store: the
      outcome is the same for any store. */
  lemma MemoryHitIgnoresStore<V>(memory: map<string, Entry<V>>, s1: map<string, Stored<V>>, a1: bool,
                                 s2: map<string, Stored<V>>, a2: bool, key: string, maxAge: int, now: int)
    requires key in memory && Fresh(memory[key], maxAge, now)
    ensures GetSpec(memory, s1, a1, key, maxAge, now) == GetSpec(memory, s2, a2, key, maxAge, now)
    ensures GetSpec(memory, s1, a1, key, maxAge, now) == Lookup(Some(memory[key].value), memory)
  {
  }

  /** On a memory miss or a stale memory entry, a fresh store entry is
      promoted into memory and returned; a missing, unreadable, garbled or
      stale store entry gives nothing and leaves memory alone, so a stale
      memory entry is not evicted. */
  lemma StoreFallback<V>(memory: map<string, Entry<V>>, store: map<string, Stored<V>>, available: bool,
                         key: string, maxAge: int, now: int)
    requires !(key in memory && Fresh(memory[key], maxAge, now))
    ensures var l := GetSpec(memory, store, available, key, maxAge, now);
      if available && key in store && store[key].Intact? && Fresh(store[key].entry, maxAge, now)
      then l == Lookup(Some(store[key].entry.value), memory[key := store[key].entry])
      else l == Lookup(None, memory)
  {
  }

  /** A lookup never loses a memory entry. */
  lemma LookupKeepsMemory<V>(memory: map<string, Entry<V>>, store: map<string, Stored<V>>, available: bool,
                             key: string, maxAge: int, now: int, k: string)
    requires k in memory
    ensures k in GetSpec(memory, store, available, key, maxAge, now).memory
  {
  }

  /** Setting then reading through the class: the value comes back from
      memory even when the store write failed. */
  method SetThenGetCached<V>(c: TwoTierCache<V>, key: string, value: V, t: int, writeSucceeds: bool,
                             maxAge: int, now: int) returns (r: Option<V>)
    requires now - t <= maxAge
    modifies c
    ensures r == Some(value)
    ensures c.memory == old(c.memory)[key := Entry(value, t)]
  {
    c.SetCached(key, value, t, writeSucceeds);
    r := c.GetCached(key, maxAge, now);
  }
}
