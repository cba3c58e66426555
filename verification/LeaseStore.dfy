/** Redis string keys with an expiry, as the lock and cache modules use them.

    A key written with `EX ttl` at time `now` is gone from `now + ttl` on. Expiry is
    therefore read off the clock: nothing has to run for a key to disappear. */
module LeaseStore {
  import opened Wrappers

  datatype Entry<V> = Entry(value: V, expiresAt: int)

  type Store<V> = map<string, Entry<V>>

  /** GET */
  function Get<V>(s: Store<V>, now: int, key: string): Option<V> {
    if key in s && now < s[key].expiresAt then Some(s[key].value) else None
  }

  /** SET key value EX ttl */
  function SetEx<V>(s: Store<V>, now: int, key: string, value: V, ttl: int): Store<V> {
    s[key := Entry(value, now + ttl)]
  }

  /** DELETE */
  function Del<V>(s: Store<V>, key: string): Store<V> {
    s - {key}
  }

  // ---- Polling -------------------------------------------------------------------------

  /** What a poller finds when it wakes: the store other clients have left, and how much
      longer than the poll interval the sleep took. */
  datatype Turn<V> = Turn(store: Store<V>, extra: nat)

  /** The clock at poll n of a loop begun at `start`. */
  ghost function ClockAfter<V>(start: int, interval: nat, n: nat, world: nat -> Turn<V>): int {
    if n == 0 then start else ClockAfter(start, interval, n - 1, world) + interval + world(n - 1).extra
  }

  /** The store poll n finds. */
  ghost function StoreBefore<V>(first: Store<V>, n: nat, world: nat -> Turn<V>): Store<V> {
    if n == 0 then first else world(n - 1).store
  }

  lemma ClockRuns<V>(start: int, interval: nat, n: nat, world: nat -> Turn<V>)
    ensures ClockAfter(start, interval, n, world) >= start + n * interval
  {
  }
}
