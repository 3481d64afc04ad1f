/** The lease lock over a shared key-value store (`DistributedLock`). The store's clock is
    explicit: `now` advances only when a client sleeps, and an entry written with an expiry
    stops being visible once the clock reaches it. */
module Lock {
  import opened Validation

  /** The two lock keys: one guards the team roster, the other match results. */
  const TeamLockKey := "team_lock"
  const MatchLockKey := "match_lock"

  /** Defaults of the source: a 5-second lease, a 1-second acquire timeout, polled every
      half second (the model counts milliseconds). */
  const DefaultTtlSeconds := 5
  const DefaultTimeoutMs := 1000
  const DefaultIntervalMs := 500

  datatype Entry = Entry(value: string, expiresAt: int)

  /** The value a GET on `key` returns at time `now`: expired entries read as absent. */
  function Visible(data: map<string, Entry>, now: int, key: string): (v: Option<string>)
    ensures v.Some? <==> key in data && data[key].expiresAt > now
  {
    if key in data && data[key].expiresAt > now then Some(data[key].value) else None
  }

  /** A SET ... NX would succeed on `key` at time `t`. */
  predicate FreeAt(data: map<string, Entry>, key: string, t: int)
  {
    Visible(data, t, key).None?
  }

  /** Once a key is free it stays free while nobody writes it: expiry only moves one way. */
  lemma FreeStaysFree(data: map<string, Entry>, key: string, t: int, u: int)
    requires t <= u && FreeAt(data, key, t)
    ensures FreeAt(data, key, u)
  {
  }

  /** The store after a compare-and-delete of `key` by the holder of `token`. An empty
      stored value reads as false, so it is never deleted. */
  function AfterGive(data: map<string, Entry>, now: int, key: string, token: string): (d: map<string, Entry>)
    ensures token != "" && Visible(data, now, key) == Some(token) ==> d == data - {key}
    ensures token == "" || Visible(data, now, key) != Some(token) ==> d == data
  {
    if token != "" && Visible(data, now, key) == Some(token) then data - {key} else data
  }

  /** A second release by the same holder finds nothing to delete and changes nothing. */
  lemma GiveTwiceHarmless(data: map<string, Entry>, now: int, key: string, token: string)
    ensures token != "" ==> Visible(AfterGive(data, now, key, token), now, key) != Some(token)
    ensures AfterGive(AfterGive(data, now, key, token), now, key, token) == AfterGive(data, now, key, token)
  {
  }

  /** A lock just written by its holder is released by the holder's first give, leaving the
      store as it was before the write except for the lock key; a later give changes
      nothing. */
  lemma ReleaseAfterHold(data: map<string, Entry>, key: string, e: Entry, now: int, token: string)
    requires token != "" && Visible(data[key := e], now, key) == Some(token)
    ensures AfterGive(data[key := e], now, key, token) == data - {key}
    ensures AfterGive(data - {key}, now, key, token) == data - {key}
  {
    assert data[key := e] - {key} == data - {key};
  }

  /** A holder cannot release a lock another token holds, and never touches another key. */
  lemma GiveRespectsOwnership(data: map<string, Entry>, now: int, key: string, token: string, other: string)
    requires Visible(data, now, key) == Some(other) && other != token
    ensures AfterGive(data, now, key, token) == data
  {
  }

  /** The redis server shared by every lock instance. */
  class KeyValueStore {
    var data: map<string, Entry>
    var now: int

    constructor ()
      ensures data == map[] && now == 0
    {
      data := map[];
      now := 0;
    }

    /** `SET key value EX ttl NX`. */
    method SetIfAbsent(key: string, value: string, ttlSeconds: nat) returns (ok: bool)
      modifies this
      ensures ok == FreeAt(old(data), key, old(now))
      ensures ok ==> data == old(data)[key := Entry(value, now + ttlSeconds * 1000)]
      ensures !ok ==> data == old(data)
      ensures now == old(now)
    {
      ok := Visible(data, now, key).None?;
      if ok {
        data := data[key := Entry(value, now + ttlSeconds * 1000)];
      }
    }

    /** `GET key`. */
    method Get(key: string) returns (v: Option<string>)
      ensures v == Visible(data, now, key)
    {
      v := Visible(data, now, key);
    }

    /** `DELETE key`. */
    method Delete(key: string)
      modifies this
      ensures data == old(data) - {key} && now == old(now)
    {
      data := data - {key};
    }

    /** `asyncio.sleep`: only the clock moves. */
    method Sleep(ms: nat)
      modifies this
      ensures now == old(now) + ms && data == old(data)
    {
      now := now + ms;
    }
  }

  class DistributedLock {
    const store: KeyValueStore
    const lockKey: string
    const ttl: nat
    /** The per-instance token (`uuid4()` in the source, never empty), supplied by the
        caller. */
    const lockValue: string

    /** The expiry is a positive number of seconds (5 by default): Redis refuses a SET with
        an expiry of 0. */
    constructor (store: KeyValueStore, lockKey: string, ttl: nat, token: string)
      requires token != "" && ttl > 0
      ensures this.store == store && this.lockKey == lockKey && this.ttl == ttl && lockValue == token
    {
      this.store := store;
      this.lockKey := lockKey;
      this.ttl := ttl;
      lockValue := token;
    }

    /** This instance holds the lock: the key is visible with this instance's token. */
    predicate Held()
      reads this, store
    {
      Visible(store.data, store.now, lockKey) == Some(lockValue)
    }

    /** `get`: poll SET NX every `intervalMs` while less than `timeoutMs` has passed. Success
        happens at the first poll that finds the key free; failure leaves the store as it
        was and returns no later than one interval after the timeout. */
    method Get(timeoutMs: nat, intervalMs: nat) returns (ok: bool)
      requires intervalMs > 0
      modifies store
      ensures ok ==> store.data == old(store.data)[lockKey := Entry(lockValue, store.now + ttl * 1000)]
      ensures ok ==> Held() || ttl == 0
      ensures ok ==> store.now - old(store.now) < timeoutMs
      ensures ok ==> exists polls: nat :: store.now == old(store.now) + polls * intervalMs
      ensures ok ==> FreeAt(old(store.data), lockKey, store.now)
      ensures ok ==> store.now == old(store.now) || !FreeAt(old(store.data), lockKey, store.now - intervalMs)
      ensures !ok ==> store.data == old(store.data)
      ensures !ok ==> timeoutMs <= store.now - old(store.now) < timeoutMs + intervalMs
      ensures !ok && timeoutMs > 0 ==> !FreeAt(old(store.data), lockKey, store.now - intervalMs)
    {
      var start := store.now;
      ghost var polls: nat := 0;
      while store.now - start < timeoutMs
        invariant store.data == old(store.data)
        invariant store.now == start + polls * intervalMs
        invariant start <= store.now < start + timeoutMs + intervalMs
        invariant store.now > start ==> !FreeAt(store.data, lockKey, store.now - intervalMs)
        decreases timeoutMs - (store.now - start)
      {
        var written := store.SetIfAbsent(lockKey, lockValue, ttl);
        if written {
          return true;
        }
        store.Sleep(intervalMs);
        polls := polls + 1;
      }
      return false;
    }

    /** `give`: compare-and-delete; only the holder of this instance's token releases, and an
        empty stored value is never released. */
    method Give() returns (ok: bool)
      modifies store
      ensures ok == (lockValue != "" && old(Held()))
      ensures store.data == AfterGive(old(store.data), old(store.now), lockKey, lockValue)
      ensures store.now == old(store.now)
    {
      var v := store.Get(lockKey);
      if v.Some? && v.value != "" && v.value == lockValue {
        store.Delete(lockKey);
        return true;
      }
      return false;
    }
  }

  /** The team and match locks use different keys, so taking one never depends on the other:
      whether the match lock is free is unaffected by the team lock's entry. */
  lemma LockKeysIndependent(data: map<string, Entry>, now: int, e: Entry)
    ensures TeamLockKey != MatchLockKey
    ensures FreeAt(data[TeamLockKey := e], MatchLockKey, now) == FreeAt(data, MatchLockKey, now)
  {
  }
}
