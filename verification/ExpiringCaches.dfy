/**
  The ignition server's payload store: a map whose entries expire a fixed time after they were
  set. Reading collects expired entries; only setting renews an entry. Clock readings are
  parameters.
 */
module ExpiringCaches {
  import opened Common

  type Instant = int

  datatype CacheValue = CacheValue(payload: string, secretName: string)

  datatype Entry = Entry(value: CacheValue, expiry: Instant)

  type Store = map<string, Entry>

  // ---- the operations as functions of the store ----

  predicate Expired(entry: Entry, now: Instant) {
    now > entry.expiry
  }

  function Collected(store: Store, now: Instant): Store {
    map key | key in store && !Expired(store[key], now) :: store[key]
  }

  function Lookup(store: Store, key: string, now: Instant): Option<CacheValue> {
    if key in store && !Expired(store[key], now) then Some(store[key].value) else None
  }

  function Stored(store: Store, ttl: int, key: string, value: CacheValue, now: Instant): Store {
    store[key := Entry(value, now + ttl)]
  }

  function Removed(store: Store, key: string): Store {
    map other | other in store && other != key :: store[other]
  }

  /** The store without the expired entries and without those of one secret. */
  function Purged(store: Store, secretName: string, now: Instant): Store {
    map key | key in store && !Expired(store[key], now) && store[key].value.secretName != secretName :: store[key]
  }

  // ---- the cache object ----

  class ExpiringCache {
    var cache: Store
    const ttl: int

    constructor (ttl: int)
      ensures cache == map[] && this.ttl == ttl
    {
      this.ttl := ttl;
      cache := map[];
    }

    method GarbageCollect(now: Instant)
      modifies this
      ensures cache == Collected(old(cache), now)
    {
      var remaining := cache.Keys;
      while remaining != {}
        invariant remaining <= old(cache).Keys
        invariant cache == map key | key in old(cache) && (key in remaining || !Expired(old(cache)[key], now)) ::
            old(cache)[key]
        decreases |remaining|
      {
        var key :| key in remaining;
        remaining := remaining - {key};
        if Expired(cache[key], now) {
          cache := Removed(cache, key);
        }
      }
    }

    method Get(key: string, now: Instant) returns (value: Option<CacheValue>)
      modifies this
      ensures cache == Collected(old(cache), now)
      ensures value == Lookup(old(cache), key, now)
    {
      GarbageCollect(now);
      value := if key in cache then Some(cache[key].value) else None;
    }

    method Set(key: string, value: CacheValue, now: Instant)
      modifies this
      ensures cache == Stored(old(cache), ttl, key, value, now)
    {
      cache := cache[key := Entry(value, now + ttl)];
    }

    method Delete(key: string)
      modifies this
      ensures cache == Removed(old(cache), key)
    {
      cache := Removed(cache, key);
    }

    method Keys() returns (keys: seq<string>)
      ensures forall key :: key in keys <==> key in cache
      ensures forall i, j :: 0 <= i < j < |keys| ==> keys[i] != keys[j]
    {
      keys := [];
      var remaining := cache.Keys;
      while remaining != {}
        invariant remaining <= cache.Keys
        invariant forall key :: key in keys <==> key in cache && key !in remaining
        invariant forall i, j :: 0 <= i < j < |keys| ==> keys[i] != keys[j]
        decreases |remaining|
      {
        var key :| key in remaining;
        remaining := remaining - {key};
        keys := keys + [key];
      }
    }
  }

  // ---- the cache refines a timed map ----

  datatype Operation = SetOp(key: string, value: CacheValue) | DeleteOp(key: string) | GetOp

  datatype Event = Event(time: Instant, op: Operation)

  function Perform(store: Store, ttl: int, event: Event): Store {
    match event.op
    case SetOp(key, value) => Stored(store, ttl, key, value, event.time)
    case DeleteOp(key) => Removed(store, key)
    case GetOp => Collected(store, event.time)
  }

  function Performed(history: seq<Event>, ttl: int): Store {
    if history == [] then map[]
    else Perform(Performed(history[..|history| - 1], ttl), ttl, history[|history| - 1])
  }

  datatype Write = Write(time: Instant, value: CacheValue)

  /** The last Set of a key that no Delete of the key follows. */
  function LastWrite(history: seq<Event>, key: string): Option<Write> {
    if history == [] then None
    else
      var last := history[|history| - 1];
      match last.op
      case SetOp(other, value) =>
        if other == key then Some(Write(last.time, value)) else LastWrite(history[..|history| - 1], key)
      case DeleteOp(other) => if other == key then None else LastWrite(history[..|history| - 1], key)
      case GetOp => LastWrite(history[..|history| - 1], key)
  }

  ghost predicate InOrder(history: seq<Event>, now: Instant) {
    && (forall i, j :: 0 <= i < j < |history| ==> history[i].time <= history[j].time)
    && (forall i :: 0 <= i < |history| ==> history[i].time <= now)
  }

  /** An entry is the last write, or it was collected after it had expired. */
  lemma {:induction false} EntryIsLastWrite(history: seq<Event>, ttl: int, key: string, now: Instant)
    requires InOrder(history, now)
    ensures var store := Performed(history, ttl);
            match LastWrite(history, key)
            case None => key !in store
            case Some(write) => if key in store then store[key] == Entry(write.value, write.time + ttl)
                                else write.time + ttl < now
  {
    if history == [] {
    } else {
      var last := history[|history| - 1];
      var earlier := history[..|history| - 1];
      assert InOrder(earlier, last.time);
      EntryIsLastWrite(earlier, ttl, key, last.time);
    }
  }

  /**
    A read yields a value exactly when the last Set of the key stored it, no Delete followed, and
    that Set is at most the time to live ago: reads never renew an entry.
   */
  lemma ReadsAreTimedMap(history: seq<Event>, ttl: int, key: string, now: Instant)
    requires InOrder(history, now)
    ensures Lookup(Performed(history, ttl), key, now)
         == match LastWrite(history, key)
            case None => None
            case Some(write) => if now <= write.time + ttl then Some(write.value) else None
  {
    EntryIsLastWrite(history, ttl, key, now);
  }
}
