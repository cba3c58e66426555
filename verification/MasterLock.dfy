/** The project write lock: `_try_acquire`, `_release` and the polling entry of
    `master_write_lock`. Times are in milliseconds. */
module MasterLock {
  import opened Wrappers
  import opened LeaseStore

  const LOCK_PREFIX := "harness:lock:master:"
  const LOCK_TTL := 600_000
  const WAIT_TIMEOUT := 300_000
  const POLL_INTERVAL := 1_000

  function Key(project: string): string {
    LOCK_PREFIX + project
  }

  lemma KeyInjective(p: string, q: string)
    requires Key(p) == Key(q)
    ensures p == q
  {
    assert p == Key(p)[|LOCK_PREFIX|..];
    assert q == Key(q)[|LOCK_PREFIX|..];
  }

  /** `SET NX EX` succeeds exactly when no live value is there. */
  predicate NxSucceeds(s: Store<string>, now: int, project: string) {
    Get(s, now, Key(project)).None?
  }

  /** The `GET` after a refused `SET NX` shows the caller's own id: re-entry. */
  predicate IsOwn(s: Store<string>, now: int, project: string, holder: string) {
    Get(s, now, Key(project)) == Some(holder)
  }

  /** Both ways in write the same thing: the holder's id with a full lease. */
  function Claim(s: Store<string>, now: int, project: string, holder: string): Store<string> {
    SetEx(s, now, Key(project), holder, LOCK_TTL)
  }

  /** Whether one attempt, run without interference, gets in. */
  predicate Admits(s: Store<string>, now: int, project: string, holder: string) {
    NxSucceeds(s, now, project) || IsOwn(s, now, project, holder)
  }

  /** An attempt gets in exactly when the key is free or already the caller's; afterwards
      the key names the caller for one full lease and not an instant longer, and no
      other project's key has moved. */
  lemma ClaimMeans(s: Store<string>, now: int, project: string, holder: string)
    ensures Admits(s, now, project, holder) <==> Get(s, now, Key(project)) in {None, Some(holder)}
    ensures forall t :: Get(Claim(s, now, project, holder), t, Key(project))
                        == if t < now + LOCK_TTL then Some(holder) else None
    ensures forall p, t | p != project ::
              Get(Claim(s, now, project, holder), t, Key(p)) == Get(s, t, Key(p))
  {
    forall p | p != project ensures Key(p) != Key(project) {
      if Key(p) == Key(project) { KeyInjective(p, project); }
    }
  }

  /** The caller's own limit in place of the default one. */
  function EffectiveWait(waitTimeout: Option<int>): int {
    if waitTimeout.Some? then waitTimeout.value else WAIT_TIMEOUT
  }

  class LeaseLock {
    var store: Store<string>
    var now: int

    constructor (store: Store<string>, now: int)
      ensures this.store == store && this.now == now
    {
      this.store, this.now := store, now;
    }

    method TryAcquire(project: string, holder: string) returns (ok: bool)
      modifies this`store
      ensures ok == Admits(old(store), now, project, holder)
      ensures store == if ok then Claim(old(store), now, project, holder) else old(store)
    {
      if NxSucceeds(store, now, project) {
        store := Claim(store, now, project, holder);
        return true;
      }
      if IsOwn(store, now, project, holder) {
        store := Claim(store, now, project, holder);
        return true;
      }
      return false;
    }

    method Release(project: string, holder: string)
      modifies this`store
      ensures store == if IsOwn(old(store), now, project, holder) then Del(old(store), Key(project)) else old(store)
    {
      if IsOwn(store, now, project, holder) {
        store := Del(store, Key(project));
      }
    }

    /** The polling loop. Attempt n looks at the store the n-th sleep left, at the clock
        `ClockAfter`; the loop stops at the first attempt that is admitted, or at the
        first refused one at or past the deadline, after at most
        ceil(wait / POLL_INTERVAL) sleeps. */
    method Enter(project: string, holder: string, waitTimeout: Option<int>, world: nat -> Turn<string>)
      returns (entered: bool, sleeps: nat)
      modifies this
      ensures var wait := EffectiveWait(waitTimeout);
              sleeps * POLL_INTERVAL < (if wait > 0 then wait + POLL_INTERVAL else 1)
      ensures now == ClockAfter(old(now), POLL_INTERVAL, sleeps, world)
      ensures var seen := StoreBefore(old(store), sleeps, world);
              && entered == Admits(seen, now, project, holder)
              && store == if entered then Claim(seen, now, project, holder) else seen
      ensures !entered ==> now >= old(now) + EffectiveWait(waitTimeout)
      ensures !entered ==> now >= old(now) + if waitTimeout.None? then 300_000 else waitTimeout.value
      ensures forall n: nat | n < sleeps :: TurnedAway(old(store), old(now), n, world, EffectiveWait(waitTimeout), project, holder)
    {
      var wait := EffectiveWait(waitTimeout);
      var deadline := now + wait;
      ghost var start, first := now, store;
      sleeps := 0;
      entered := TryAcquire(project, holder);
      while !entered
        invariant sleeps > 0 ==> (sleeps - 1) * POLL_INTERVAL < wait
        invariant now == ClockAfter(start, POLL_INTERVAL, sleeps, world)
        invariant entered == Admits(StoreBefore(first, sleeps, world), now, project, holder)
        invariant store == if entered then Claim(StoreBefore(first, sleeps, world), now, project, holder)
                           else StoreBefore(first, sleeps, world)
        invariant forall n: nat | n < sleeps :: TurnedAway(first, start, n, world, wait, project, holder)
        decreases deadline - now, !entered
      {
        if now >= deadline {
          return false, sleeps;
        }
        ClockRuns(start, POLL_INTERVAL, sleeps, world);
        var turn := world(sleeps);
        store := turn.store;
        now := now + POLL_INTERVAL + turn.extra;
        sleeps := sleeps + 1;
        entered := TryAcquire(project, holder);
      }
    }
  }

  /** Attempt n is made before the deadline and refused. */
  ghost predicate TurnedAway(first: Store<string>, start: int, n: nat, world: nat -> Turn<string>, wait: int,
                             project: string, holder: string)
  {
    && ClockAfter(start, POLL_INTERVAL, n, world) < start + wait
    && !Admits(StoreBefore(first, n, world), ClockAfter(start, POLL_INTERVAL, n, world), project, holder)
  }
}
