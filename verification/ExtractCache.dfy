/** The extract cache: its key, its Redis operations, and the single-flight protocol
    between prefetch jobs and main jobs on one key. Times in milliseconds. */
module ExtractCache {
  import opened Wrappers
  import opened LeaseStore
  import opened PyText

  const CACHE_PREFIX := "harness:extract:v4:"
  const CACHE_TTL := 7_200_000
  const LOCK_TTL := 180_000
  const WAIT_TIMEOUT := 90_000
  const WAIT_POLL := 1_000

  // ---- Keys --------------------------------------------------------------------------

  /** `digest` stands for the first 16 hex digits of the SHA-256: of one length, and with
      collisions. */
  function CacheKey(digest: string -> string, project: string, version: string, content: string): string {
    CACHE_PREFIX + project + ":" + version + ":" + digest(Strip(content))
  }

  ghost predicate IsDigest(digest: string -> string) {
    forall s :: |digest(s)| == 16
  }

  /** These two contents do not collide. */
  ghost predicate Tells(digest: string -> string, c: string, c': string) {
    digest(Strip(c)) == digest(Strip(c')) ==> Strip(c) == Strip(c')
  }

  /** Two jobs share an entry exactly when project and version read the same with a colon
      between them and the digests of the stripped contents agree. */
  lemma KeysEqual(digest: string -> string, p: string, v: string, c: string, p': string, v': string, c': string)
    requires IsDigest(digest)
    ensures CacheKey(digest, p, v, c) == CacheKey(digest, p', v', c') <==>
            p + ":" + v == p' + ":" + v' && digest(Strip(c)) == digest(Strip(c'))
    ensures Tells(digest, c, c') ==>
              (CacheKey(digest, p, v, c) == CacheKey(digest, p', v', c') <==>
               p + ":" + v == p' + ":" + v' && Strip(c) == Strip(c'))
  {
    var d, d' := digest(Strip(c)), digest(Strip(c'));
    var k, k' := CacheKey(digest, p, v, c), CacheKey(digest, p', v', c');
    KeyText(p, v, d);
    KeyText(p', v', d');
    if k == k' {
      assert k[..|k| - 16] == CACHE_PREFIX + ((p + ":" + v) + ":") && k[|k| - 16..] == d;
      assert k'[..|k'| - 16] == CACHE_PREFIX + ((p' + ":" + v') + ":") && k'[|k'| - 16..] == d';
      SameMiddle(p + ":" + v, p' + ":" + v');
    }
  }

  lemma KeyText(p: string, v: string, d: string)
    ensures CACHE_PREFIX + p + ":" + v + ":" + d == (CACHE_PREFIX + ((p + ":" + v) + ":")) + d
  {
  }

  lemma SameMiddle(a: string, b: string)
    requires CACHE_PREFIX + (a + ":") == CACHE_PREFIX + (b + ":")
    ensures a == b
  {
    var s, t := CACHE_PREFIX + (a + ":"), CACHE_PREFIX + (b + ":");
    assert s[|CACHE_PREFIX|..|s| - 1] == a && t[|CACHE_PREFIX|..|t| - 1] == b;
  }

  /** With colons in no version, the key determines project and version, and the content up
      to outer whitespace and collisions of the digest. */
  lemma KeyDeterminesInput(digest: string -> string, p: string, v: string, c: string, p': string, v': string, c': string)
    requires IsDigest(digest) && ':' !in v && ':' !in v'
    ensures CacheKey(digest, p, v, c) == CacheKey(digest, p', v', c') <==>
            p == p' && v == v' && digest(Strip(c)) == digest(Strip(c'))
    ensures Tells(digest, c, c') && CacheKey(digest, p, v, c) == CacheKey(digest, p', v', c') ==>
              p == p' && v == v' && Strip(c) == Strip(c')
  {
    KeysEqual(digest, p, v, c, p', v', c');
    if p + ":" + v == p' + ":" + v' { SplitAtLastColon(p, v, p', v'); }
  }

  lemma SplitAtLastColon(p: string, v: string, p': string, v': string)
    requires p + ":" + v == p' + ":" + v' && ':' !in v && ':' !in v'
    ensures p == p' && v == v'
  {
    var s := p + ":" + v;
    assert s[|p|] == ':' && s[|p'|] == ':';
    assert |p| >= |p'| by { assert forall n | |p| < n < |s| :: s[n] == v[n - |p| - 1]; }
    assert |p'| >= |p| by { assert forall n | |p'| < n < |s| :: s[n] == v'[n - |p'| - 1]; }
    assert s[..|p|] == p && s[..|p'|] == p' && s[|p| + 1..] == v && s[|p'| + 1..] == v';
  }

  /** No other project and version, of whatever form, have this one's key. */
  ghost predicate Unshared(digest: string -> string, p: string, v: string, c: string) {
    forall p', v' :: CacheKey(digest, p', v', c) == CacheKey(digest, p, v, c) ==> p' == p && v' == v
  }

  /** None whose version has no colon has. */
  ghost predicate UnsharedByPlain(digest: string -> string, p: string, v: string, c: string) {
    forall p', v' :: ':' !in v' && CacheKey(digest, p', v', c) == CacheKey(digest, p, v, c) ==> p' == p && v' == v
  }

  /** A colon further right: the project with the version's part in front of it. */
  lemma CollidesRight(digest: string -> string, p: string, v: string, c: string, j: nat)
    requires j < |v| && v[j] == ':'
    ensures CacheKey(digest, p + ":" + v[..j], v[j + 1..], c) == CacheKey(digest, p, v, c)
  {
    assert v == v[..j] + (":" + v[j + 1..]);
    assert (p + ":" + v[..j]) + ":" + v[j + 1..] == p + ":" + v;
    KeyText(p, v, digest(Strip(c)));
    KeyText(p + ":" + v[..j], v[j + 1..], digest(Strip(c)));
  }

  /** A colon further left: the version with the project's part behind it. */
  lemma CollidesLeft(digest: string -> string, p: string, v: string, c: string, j: nat)
    requires j < |p| && p[j] == ':'
    ensures CacheKey(digest, p[..j], p[j + 1..] + ":" + v, c) == CacheKey(digest, p, v, c)
  {
    assert p == p[..j] + (":" + p[j + 1..]);
    assert p[..j] + ":" + (p[j + 1..] + ":" + v) == p + ":" + v;
    KeyText(p, v, digest(Strip(c)));
    KeyText(p[..j], p[j + 1..] + ":" + v, digest(Strip(c)));
  }

  lemma {:induction false} LastColon(v: string) returns (j: nat)
    requires ':' in v
    ensures j < |v| && v[j] == ':' && ':' !in v[j + 1..]
  {
    j := |v| - 1;
    if v[j] != ':' {
      assert v == v[..j] + [v[j]];
      var i := LastColon(v[..j]);
      assert v[i + 1..] == v[..j][i + 1..] + [v[j]];
      j := i;
    }
  }

  /** Which inputs have a key to themselves: against all others those with no colon at all,
      against those whose version has none those whose own version has none. */
  lemma SeparatorCollides(digest: string -> string, p: string, v: string, c: string)
    requires IsDigest(digest)
    ensures Unshared(digest, p, v, c) <==> ':' !in p && ':' !in v
    ensures UnsharedByPlain(digest, p, v, c) <==> ':' !in v
  {
    if ':' in v {
      var j := LastColon(v);
      CollidesRight(digest, p, v, c, j);
      assert |v[j + 1..]| < |v|;
    } else {
      forall p', v' | ':' !in v' && CacheKey(digest, p', v', c) == CacheKey(digest, p, v, c) ensures p' == p && v' == v {
        KeyDeterminesInput(digest, p', v', c, p, v, c);
      }
    }
    if ':' in p {
      var j :| 0 <= j < |p| && p[j] == ':';
      CollidesLeft(digest, p, v, c, j);
      assert |p[..j]| < |p|;
    } else if ':' !in v {
      forall p', v' | CacheKey(digest, p', v', c) == CacheKey(digest, p, v, c) ensures p' == p && v' == v {
        KeysEqual(digest, p', v', c, p, v, c);
        OneColon(p, v, p', v');
      }
    }
  }

  lemma OneColon(p: string, v: string, p': string, v': string)
    requires p + ":" + v == p' + ":" + v' && ':' !in p && ':' !in v
    ensures p == p' && v == v'
  {
    var s := p + ":" + v;
    assert s[|p'|] == ':';
    assert forall n | 0 <= n < |s| && n != |p| :: s[n] == if n < |p| then p[n] else v[n - |p| - 1];
    assert |p'| == |p|;
    assert s[..|p|] == p && s[..|p'|] == p' && s[|p| + 1..] == v && s[|p'| + 1..] == v';
  }

  // ---- Entries -----------------------------------------------------------------------

  /** A member of a decoded JSON object, as far as `_is_valid_extract` looks at it. */
  datatype Field = Absent | Graph(id: string) | Text(text: string) | OtherJson

  datatype Extract = NotAnObject | Extract(cpsGraph: Field, prdGraph: Field, prdMarkdown: Field)

  predicate IsValidExtract(e: Option<Extract>) {
    && e.Some? && e.value.Extract?
    && e.value.cpsGraph.Graph? && e.value.prdGraph.Graph?
    && e.value.prdMarkdown.Text? && Strip(e.value.prdMarkdown.text) != ""
  }

  /** A valid entry is an object with both graphs and a PRD text that is not blank. */
  lemma ValidMeans(e: Option<Extract>)
    ensures IsValidExtract(e) <==>
            exists cps, prd, text :: e == Some(Extract(Graph(cps), Graph(prd), Text(text))) && exists c :: c in text && !IsSpace(c)
  {
    if e.Some? && e.value.Extract? && e.value.cpsGraph.Graph? && e.value.prdGraph.Graph? && e.value.prdMarkdown.Text? {
      var cps, prd, text := e.value.cpsGraph.id, e.value.prdGraph.id, e.value.prdMarkdown.text;
      StripEmptiesExactly(text);
      assert e == Some(Extract(Graph(cps), Graph(prd), Text(text)));
    }
  }

  /** What is stored under a key: JSON text that decodes, text that does not, or the
      lock's flag. Encoding then decoding an extract gives the extract back. */
  datatype Raw = Json(extract: Extract) | Garbage | Flag

  function LockKey(key: string): string {
    key + ":lock"
  }

  function GetCached(s: Store<Raw>, now: int, key: string): Option<Extract> {
    var raw := Get(s, now, key);
    if raw.Some? && raw.value.Json? then Some(raw.value.extract) else None
  }

  function SetCached(s: Store<Raw>, now: int, key: string, e: Extract): Store<Raw> {
    SetEx(s, now, key, Json(e), CACHE_TTL)
  }

  predicate LockFree(s: Store<Raw>, now: int, key: string) {
    Get(s, now, LockKey(key)).None?
  }

  function TakeLock(s: Store<Raw>, now: int, key: string): Store<Raw> {
    SetEx(s, now, LockKey(key), Flag, LOCK_TTL)
  }

  lemma LockKeyDiffers(key: string)
    ensures LockKey(key) != key
  {
    assert |LockKey(key)| == |key| + 5;
  }

  ghost function SeenAt(first: Store<Raw>, start: int, n: nat, world: nat -> Turn<Raw>, key: string): Option<Extract> {
    GetCached(StoreBefore(first, n, world), ClockAfter(start, WAIT_POLL, n, world), key)
  }

  class Cache {
    var store: Store<Raw>
    var now: int

    constructor (store: Store<Raw>, now: int)
      ensures this.store == store && this.now == now
    {
      this.store, this.now := store, now;
    }

    method TryAcquireLock(key: string) returns (ok: bool)
      modifies this`store
      ensures ok <==> Get(old(store), now, LockKey(key)).None?
      ensures !ok ==> store == old(store)
      ensures ok ==> forall t :: Get(store, t, LockKey(key)).Some? <==> t < now + LOCK_TTL
      ensures forall k, t | k != LockKey(key) :: Get(store, t, k) == Get(old(store), t, k)
    {
      ok := LockFree(store, now, key);
      if ok { store := TakeLock(store, now, key); }
    }

    /** The wait loop returns the first entry any poll before the deadline decodes, valid
        or not, and None after at most ceil(WAIT_TIMEOUT / WAIT_POLL) empty polls. */
    method WaitForCached(key: string, world: nat -> Turn<Raw>) returns (found: Option<Extract>, polls: nat)
      modifies this
      ensures polls * WAIT_POLL <= WAIT_TIMEOUT + WAIT_POLL
      ensures forall n: nat | n + 1 < polls :: SeenAt(old(store), old(now), n, world, key).None?
      ensures found.Some? ==>
                && polls > 0 && found == SeenAt(old(store), old(now), polls - 1, world, key)
                && ClockAfter(old(now), WAIT_POLL, polls - 1, world) < old(now) + WAIT_TIMEOUT
      ensures found.None? ==>
                && ClockAfter(old(now), WAIT_POLL, polls, world) >= old(now) + WAIT_TIMEOUT
                && (polls > 0 ==> SeenAt(old(store), old(now), polls - 1, world, key).None?)
    {
      var deadline := now + WAIT_TIMEOUT;
      ghost var start, first := now, store;
      polls := 0;
      while now < deadline
        invariant now == ClockAfter(start, WAIT_POLL, polls, world)
        invariant store == StoreBefore(first, polls, world)
        invariant forall n: nat | n < polls :: SeenAt(first, start, n, world, key).None?
        invariant polls > 0 ==> (polls - 1) * WAIT_POLL < WAIT_TIMEOUT
        decreases deadline - now
      {
        ClockRuns(start, WAIT_POLL, polls, world);
        found := GetCached(store, now, key);
        if found.Some? {
          return found, polls + 1;
        }
        var turn := world(polls);
        store := turn.store;
        now := now + WAIT_POLL + turn.extra;
        polls := polls + 1;
      }
      return None, polls;
    }
  }

  // ---- Single flight -----------------------------------------------------------------

  datatype Phase =
    | Looking(main: bool)                 // about to read the cache
    | Locking(main: bool)                 // miss: about to SET NX the lock
    | Waiting(deadline: int)              // main job, lock refused: polling
    | Computing(main: bool)
    | Storing(main: bool, value: Extract)

  datatype ComputeStart = ComputeStart(time: int, afterWait: bool)

  datatype Return = Return(value: Extract, fromCache: bool)

  /** `starts`, `failedWaits`, `produced` and `returned` are history. */
  datatype State = State(
    now: int,
    store: Store<Raw>,
    jobs: map<nat, Phase>,
    starts: seq<ComputeStart>,
    failedWaits: seq<int>,
    produced: set<Extract>,
    returned: seq<Return>)

  datatype Step =
    | Tick(elapsed: nat)
    | Begin(j: nat, main: bool)
    | Look(j: nat)
    | SkipForQuota(j: nat)
    | Lock(j: nat)
    | Poll(j: nat)
    | GiveUpWaiting(j: nat)
    | ComputeOk(j: nat, value: Extract)
    | ComputeFail(j: nat)
    | StoreResult(j: nat)
    | Crash(j: nat)
    | Damage(raw: Raw)

  function Set(s: State, j: nat, p: Phase): State {
    s.(jobs := s.jobs[j := p])
  }

  function Drop(s: State, j: nat): State {
    s.(jobs := s.jobs - {j})
  }

  function StartCompute(s: State, j: nat, main: bool, afterWait: bool): State {
    Set(s, j, Computing(main)).(starts := s.starts + [ComputeStart(s.now, afterWait)])
  }

  function FailWait(s: State, j: nat): State {
    StartCompute(s, j, true, true).(failedWaits := s.failedWaits + [s.now])
  }

  function Finish(s: State, j: nat, r: Return): State {
    Drop(s, j).(returned := s.returned + [r])
  }

  /** Reading the cache: a valid entry ends the job, anything else is a miss. */
  function LookStep(key: string, s: State, j: nat, main: bool): State {
    var found := GetCached(s.store, s.now, key);
    if !IsValidExtract(found) then Set(s, j, Locking(main))
    else if main then Finish(s, j, Return(found.value, true))
    else Drop(s, j)
  }

  /** SET NX on the lock: the winner computes, a main job that loses waits, a prefetch leaves. */
  function LockStep(key: string, s: State, j: nat, main: bool): State {
    if LockFree(s.store, s.now, key) then
      StartCompute(s, j, main, false).(store := TakeLock(s.store, s.now, key))
    else if main then Set(s, j, Waiting(s.now + WAIT_TIMEOUT))
    else Drop(s, j)
  }

  /** One poll of a waiting main job: whatever decodes ends the wait. */
  function PollStep(key: string, s: State, j: nat): State {
    var found := GetCached(s.store, s.now, key);
    if IsValidExtract(found) then Finish(s, j, Return(found.value, true))
    else if found.Some? then FailWait(s, j)
    else s
  }

  function StoreStep(key: string, s: State, j: nat, main: bool, value: Extract): State {
    var t := s.(store := SetCached(s.store, s.now, key, value));
    if main then Finish(t, j, Return(value, false)) else Drop(t, j)
  }

  function Next(key: string, s: State, step: Step): Option<State> {
    match step
    case Tick(elapsed) => Some(s.(now := s.now + elapsed))
    case Damage(raw) =>
      // an entry written by an older version, or cut short: anything but a valid extract
      if raw.Json? && IsValidExtract(Some(raw.extract)) then None
      else Some(s.(store := SetEx(s.store, s.now, key, raw, CACHE_TTL)))
    case Begin(j, main) =>
      if j in s.jobs then None else Some(Set(s, j, Looking(main)))
    case Look(j) =>
      if j in s.jobs && s.jobs[j].Looking? then Some(LookStep(key, s, j, s.jobs[j].main)) else None
    case SkipForQuota(j) =>
      if j in s.jobs && s.jobs[j] == Locking(false) then Some(Drop(s, j)) else None
    case Lock(j) =>
      if j in s.jobs && s.jobs[j].Locking? then Some(LockStep(key, s, j, s.jobs[j].main)) else None
    case Poll(j) =>
      if j in s.jobs && s.jobs[j].Waiting? && s.now < s.jobs[j].deadline then Some(PollStep(key, s, j)) else None
    case GiveUpWaiting(j) =>
      if j in s.jobs && s.jobs[j].Waiting? && s.now >= s.jobs[j].deadline then Some(FailWait(s, j)) else None
    case ComputeOk(j, value) =>
      if j in s.jobs && s.jobs[j].Computing? then
        Some(Set(s, j, Storing(s.jobs[j].main, value)).(produced := s.produced + {value}))
      else None
    case ComputeFail(j) =>
      if j in s.jobs && s.jobs[j].Computing? then Some(Drop(s, j)) else None
    case StoreResult(j) =>
      if j in s.jobs && s.jobs[j].Storing? then Some(StoreStep(key, s, j, s.jobs[j].main, s.jobs[j].value)) else None
    case Crash(j) =>
      if j in s.jobs then Some(Drop(s, j)) else None
  }

  ghost predicate IsRun(key: string, steps: seq<Step>, states: seq<State>) {
    && |states| == |steps| + 1
    && states[0].store == map[] && states[0].jobs == map[] && states[0].starts == []
    && states[0].failedWaits == [] && states[0].produced == {} && states[0].returned == []
    && forall i | 0 <= i < |steps| :: Next(key, states[i], steps[i]) == Some(states[i + 1])
  }

  ghost predicate CacheProduced(key: string, s: State) {
    key in s.store && s.store[key].value.Json? && IsValidExtract(Some(s.store[key].value.extract)) ==>
      s.store[key].value.extract in s.produced
  }

  ghost predicate PendingProduced(s: State) {
    forall j | j in s.jobs && s.jobs[j].Storing? :: s.jobs[j].value in s.produced
  }

  ghost predicate ReturnsProduced(s: State) {
    forall i | 0 <= i < |s.returned| ::
      && s.returned[i].value in s.produced
      && (s.returned[i].fromCache ==> IsValidExtract(Some(s.returned[i].value)))
  }

  /** Everything valid in the cache, everything about to be stored and everything returned
      came out of a compute; nothing malformed was returned from the cache. */
  ghost predicate Provenance(key: string, s: State) {
    CacheProduced(key, s) && PendingProduced(s) && ReturnsProduced(s)
  }

  /** Computes begun under the lock, rather than after a failed wait, begin at least one
      lease apart, and the lock outlasts the latest of them by a full lease. */
  ghost predicate OwnersApart(key: string, s: State) {
    && (forall a, b | 0 <= a < b < |s.starts| :: s.starts[a].time <= s.starts[b].time <= s.now)
    && (forall a | 0 <= a < |s.starts| :: s.starts[a].time <= s.now)
    && (forall a, b | 0 <= a < b < |s.starts| && !s.starts[a].afterWait && !s.starts[b].afterWait ::
          s.starts[a].time + LOCK_TTL <= s.starts[b].time)
    && (forall a | 0 <= a < |s.starts| && !s.starts[a].afterWait ::
          LockKey(key) in s.store && s.starts[a].time + LOCK_TTL <= s.store[LockKey(key)].expiresAt)
  }

  lemma StepKeepsCacheProduced(key: string, s: State, step: Step, t: State)
    requires Provenance(key, s) && Next(key, s, step) == Some(t)
    ensures CacheProduced(key, t)
  {
    LockKeyDiffers(key);
  }

  lemma StepKeepsReturnsProduced(key: string, s: State, step: Step, t: State)
    requires Provenance(key, s) && Next(key, s, step) == Some(t)
    ensures ReturnsProduced(t)
  {
  }

  lemma StepKeepsProvenance(key: string, s: State, step: Step, t: State)
    requires Provenance(key, s) && Next(key, s, step) == Some(t)
    ensures Provenance(key, t)
  {
    StepKeepsCacheProduced(key, s, step, t);
    StepKeepsReturnsProduced(key, s, step, t);
  }

  /** Nothing begins, and the lock entry is as before. */
  lemma ApartWhileIdle(key: string, s: State, t: State)
    requires OwnersApart(key, s) && t.starts == s.starts && t.now >= s.now
    requires LockKey(key) in s.store ==> LockKey(key) in t.store && t.store[LockKey(key)] == s.store[LockKey(key)]
    ensures OwnersApart(key, t)
  {
  }

  /** A compute begins without the lock, after a failed wait. */
  lemma ApartAfterWait(key: string, s: State, t: State)
    requires OwnersApart(key, s) && t.starts == s.starts + [ComputeStart(s.now, true)]
    requires t.now == s.now && t.store == s.store
    ensures OwnersApart(key, t)
  {
  }

  /** A compute begins with the lock just taken, so the last lease is over. */
  lemma ApartWithLock(key: string, s: State, t: State)
    requires OwnersApart(key, s) && t.starts == s.starts + [ComputeStart(s.now, false)]
    requires t.now == s.now && LockFree(s.store, s.now, key) && t.store == TakeLock(s.store, s.now, key)
    ensures OwnersApart(key, t)
  {
  }

  lemma StepKeepsOwnersApart(key: string, s: State, step: Step, t: State)
    requires OwnersApart(key, s) && Next(key, s, step) == Some(t)
    ensures OwnersApart(key, t)
  {
    LockKeyDiffers(key);
    if t.starts == s.starts {
      ApartWhileIdle(key, s, t);
    } else if step.Lock? {
      ApartWithLock(key, s, t);
    } else {
      ApartAfterWait(key, s, t);
    }
  }

  lemma {:induction false} RunKeeps(key: string, steps: seq<Step>, states: seq<State>, i: nat)
    requires IsRun(key, steps, states) && i < |states|
    ensures Provenance(key, states[i]) && OwnersApart(key, states[i])
    ensures WaitStarts(states[i].starts) == states[i].failedWaits
  {
    if i > 0 {
      RunKeeps(key, steps, states, i - 1);
      var s, t := states[i - 1], states[i];
      assert Next(key, s, steps[i - 1]) == Some(t);
      StepKeepsProvenance(key, s, steps[i - 1], t);
      StepKeepsOwnersApart(key, s, steps[i - 1], t);
      StepKeepsWaitStarts(key, s, steps[i - 1], t);
    }
  }

  lemma StepKeepsWaitStarts(key: string, s: State, step: Step, t: State)
    requires WaitStarts(s.starts) == s.failedWaits && Next(key, s, step) == Some(t)
    ensures WaitStarts(t.starts) == t.failedWaits
  {
    if t.starts != s.starts {
      assert t.starts[..|t.starts| - 1] == s.starts;
    }
  }

  /** The times of the computes that began because a wait ended without a valid entry. */
  ghost function WaitStarts(starts: seq<ComputeStart>): seq<int> {
    if starts == [] then []
    else
      var last := starts[|starts| - 1];
      WaitStarts(starts[..|starts| - 1]) + if last.afterWait then [last.time] else []
  }

  ghost function StartsWithin(starts: seq<ComputeStart>, from: int): nat {
    if starts == [] then 0
    else
      StartsWithin(starts[..|starts| - 1], from)
      + if from <= starts[|starts| - 1].time < from + LOCK_TTL then 1 else 0
  }

  ghost function TimesWithin(times: seq<int>, from: int): nat {
    if times == [] then 0
    else TimesWithin(times[..|times| - 1], from) + if from <= times[|times| - 1] < from + LOCK_TTL then 1 else 0
  }

  ghost predicate HasOwnerWithin(starts: seq<ComputeStart>, from: int) {
    exists a :: 0 <= a < |starts| && !starts[a].afterWait && from <= starts[a].time < from + LOCK_TTL
  }

  lemma {:induction false} CountStarts(starts: seq<ComputeStart>, from: int)
    requires forall a, b | 0 <= a < b < |starts| && !starts[a].afterWait && !starts[b].afterWait ::
               starts[a].time + LOCK_TTL <= starts[b].time
    ensures StartsWithin(starts, from)
            == TimesWithin(WaitStarts(starts), from) + if HasOwnerWithin(starts, from) then 1 else 0
  {
    if starts != [] {
      var rest, last := starts[..|starts| - 1], starts[|starts| - 1];
      CountStarts(rest, from);
      var w := WaitStarts(rest);
      if last.afterWait {
        assert (w + [last.time])[..|w|] == w;
        SameOwner(starts, from);
      } else {
        assert w + [] == w;
        if from <= last.time < from + LOCK_TTL {
          assert starts[|starts| - 1] == last;
          forall a | 0 <= a < |rest| && !rest[a].afterWait ensures !(from <= rest[a].time) {
            assert starts[a] == rest[a];
          }
        } else {
          SameOwner(starts, from);
        }
      }
    }
  }

  /** A last start outside the window changes nothing about owners within it. */
  lemma SameOwner(starts: seq<ComputeStart>, from: int)
    requires starts != []
    requires var last := starts[|starts| - 1]; last.afterWait || !(from <= last.time < from + LOCK_TTL)
    ensures HasOwnerWithin(starts, from) == HasOwnerWithin(starts[..|starts| - 1], from)
  {
    var rest := starts[..|starts| - 1];
    assert forall a | 0 <= a < |rest| :: rest[a] == starts[a];
  }

  /** Single flight: within any stretch of one lock lease, the computes that begin are at
      most one more than the waits that end without a valid entry. */
  lemma SingleFlight(key: string, steps: seq<Step>, states: seq<State>, i: nat, from: int)
    requires IsRun(key, steps, states) && i < |states|
    ensures StartsWithin(states[i].starts, from) <= 1 + TimesWithin(states[i].failedWaits, from)
  {
    RunKeeps(key, steps, states, i);
    CountStarts(states[i].starts, from);
  }

  /** Every extract handed to a main job came out of a compute for this key, and none
      that was read from the cache is malformed. */
  lemma ReturnsOnlyComputed(key: string, steps: seq<Step>, states: seq<State>, i: nat, r: Return)
    requires IsRun(key, steps, states) && i < |states| && r in states[i].returned
    ensures exists n, j :: 0 <= n < i && steps[n] == ComputeOk(j, r.value)
    ensures r.fromCache ==> IsValidExtract(Some(r.value))
  {
    RunKeeps(key, steps, states, i);
    ProducedByCompute(key, steps, states, i, r.value);
  }

  lemma {:induction false} ProducedByCompute(key: string, steps: seq<Step>, states: seq<State>, i: nat, e: Extract)
    requires IsRun(key, steps, states) && i < |states| && e in states[i].produced
    ensures exists n, j :: 0 <= n < i && steps[n] == ComputeOk(j, e)
  {
    if i > 0 {
      assert Next(key, states[i - 1], steps[i - 1]) == Some(states[i]);
      if e in states[i - 1].produced {
        ProducedByCompute(key, steps, states, i - 1, e);
      } else {
        assert steps[i - 1] == ComputeOk(steps[i - 1].j, e);
      }
    }
  }

  /** While a valid entry is live, a main job that looks gets it without computing. */
  lemma ValidEntryIsUsed(key: string, s: State, j: nat)
    requires IsValidExtract(GetCached(s.store, s.now, key))
    requires j in s.jobs && (s.jobs[j] == Looking(true) || (s.jobs[j].Waiting? && s.now < s.jobs[j].deadline))
    ensures var t := Next(key, s, if s.jobs[j].Looking? then Look(j) else Poll(j));
            && t.Some? && t.value.starts == s.starts && j !in t.value.jobs
            && t.value.returned == s.returned + [Return(GetCached(s.store, s.now, key).value, true)]
  {
  }

  /** Steps that write the entry itself. */
  predicate Writes(step: Step) {
    step.StoreResult? || step.Damage?
  }

  lemma OthersKeepEntry(key: string, s: State, step: Step, t: State)
    requires Next(key, s, step) == Some(t) && !Writes(step)
    ensures key in s.store ==> key in t.store && t.store[key] == s.store[key]
    ensures t.now >= s.now
  {
    LockKeyDiffers(key);
  }

  lemma {:induction false} EntryStays(key: string, steps: seq<Step>, states: seq<State>, i: nat, k: nat)
    requires IsRun(key, steps, states) && i < k < |states| && steps[i].StoreResult?
    requires forall n | i < n < k :: !Writes(steps[n])
    ensures steps[i].j in states[i].jobs && states[i].jobs[steps[i].j].Storing?
    ensures key in states[k].store
    ensures states[k].store[key] == Entry(Json(states[i].jobs[steps[i].j].value), states[i].now + CACHE_TTL)
  {
    assert Next(key, states[k - 1], steps[k - 1]) == Some(states[k]);
    if i < k - 1 {
      EntryStays(key, steps, states, i, k - 1);
      OthersKeepEntry(key, states[k - 1], steps[k - 1], states[k]);
    }
  }

  /** A result that was stored is there for whoever looks within the entry's lifetime, and
      for nobody after it, until something else is stored; and a main job returns it. */
  lemma StoredIsFound(key: string, steps: seq<Step>, states: seq<State>, i: nat, k: nat)
    requires IsRun(key, steps, states) && i < k < |states| && steps[i].StoreResult?
    requires forall n | i < n < k :: !Writes(steps[n])
    ensures var j := steps[i].j;
            && j in states[i].jobs && states[i].jobs[j].Storing? && j !in states[i + 1].jobs
            && GetCached(states[k].store, states[k].now, key) ==
                 (if states[k].now < states[i].now + CACHE_TTL then Some(states[i].jobs[j].value) else None)
            && states[i + 1].returned ==
                 states[i].returned + if states[i].jobs[j].main then [Return(states[i].jobs[j].value, false)] else []
  {
    assert Next(key, states[i], steps[i]) == Some(states[i + 1]);
    EntryStays(key, steps, states, i, k);
  }

  // ---- What a job can do ---------------------------------------------------------------

  /** Each step is possible at exactly one point of a job, and nothing else stands in its
      way; only a prefetch may stop for the quota, and a waiting job polls before its
      deadline and gives up from then on. */
  lemma EnabledExactlyWhen(key: string, s: State, step: Step)
    ensures Next(key, s, step).Some? <==>
            match step
            case Tick(_) => true
            case Damage(raw) => raw.Json? ==> !IsValidExtract(Some(raw.extract))
            case Begin(j, _) => j !in s.jobs
            case Look(j) => j in s.jobs && s.jobs[j].Looking?
            case SkipForQuota(j) => j in s.jobs && s.jobs[j].Locking? && !s.jobs[j].main
            case Lock(j) => j in s.jobs && s.jobs[j].Locking?
            case Poll(j) => j in s.jobs && s.jobs[j].Waiting? && s.now < s.jobs[j].deadline
            case GiveUpWaiting(j) => j in s.jobs && s.jobs[j].Waiting? && s.now >= s.jobs[j].deadline
            case ComputeOk(j, _) => j in s.jobs && s.jobs[j].Computing?
            case ComputeFail(j) => j in s.jobs && s.jobs[j].Computing?
            case StoreResult(j) => j in s.jobs && s.jobs[j].Storing?
            case Crash(j) => j in s.jobs
    ensures step.Tick? ==> Next(key, s, step) == Some(s.(now := s.now + step.elapsed))
    ensures step.Begin? && step.j !in s.jobs ==>
              Next(key, s, step) == Some(s.(jobs := s.jobs[step.j := Looking(step.main)]))
    ensures step.Damage? && Next(key, s, step).Some? ==>
              forall t :: Get(Next(key, s, step).value.store, t, key) == if t < s.now + CACHE_TTL then Some(step.raw) else None
  {
  }

  /** A look or a lock attempt that finds nothing to use: a main job goes on to the lock, and
      from there computes if it is free, under a lock of one lease, or waits its full time;
      a prefetch that finds the lock taken, or a valid entry, is over. */
  lemma MissMeans(key: string, s: State, j: nat)
    requires j in s.jobs && (s.jobs[j].Looking? || s.jobs[j].Locking?)
    ensures var main, look := s.jobs[j].main, s.jobs[j].Looking?;
            var t := Next(key, s, if look then Look(j) else Lock(j));
            && t.Some?
            && (look && !IsValidExtract(GetCached(s.store, s.now, key)) ==> t.value.jobs == s.jobs[j := Locking(main)])
            && (look && IsValidExtract(GetCached(s.store, s.now, key)) ==> t.value.jobs == s.jobs - {j})
            && (!main || !look || !IsValidExtract(GetCached(s.store, s.now, key)) ==> t.value.returned == s.returned)
            && (!look && Get(s.store, s.now, LockKey(key)).None? ==>
                  && t.value.jobs == s.jobs[j := Computing(main)]
                  && t.value.starts == s.starts + [ComputeStart(s.now, false)]
                  && forall at :: Get(t.value.store, at, LockKey(key)).Some? <==> at < s.now + LOCK_TTL)
            && (!look && Get(s.store, s.now, LockKey(key)).Some? ==>
                  && t.value.store == s.store && t.value.starts == s.starts
                  && t.value.jobs == if main then s.jobs[j := Waiting(s.now + WAIT_TIMEOUT)] else s.jobs - {j})
  {
  }

  /** A poll that finds nothing changes nothing. */
  lemma EmptyPollWaits(key: string, s: State, j: nat)
    requires Next(key, s, Poll(j)).Some? && GetCached(s.store, s.now, key).None?
    ensures Next(key, s, Poll(j)) == Some(s)
  {
  }

  /** A wait that ends without a valid entry goes on to compute, and is counted. */
  lemma FailedWaitComputes(key: string, s: State, j: nat, step: Step)
    requires j in s.jobs && s.jobs[j].Waiting? && step in {Poll(j), GiveUpWaiting(j)}
    requires Next(key, s, step).Some? && !IsValidExtract(GetCached(s.store, s.now, key))
    requires step.Poll? ==> GetCached(s.store, s.now, key).Some?
    ensures var t := Next(key, s, step).value;
            && t.jobs == s.jobs[j := Computing(true)] && t.store == s.store
            && t.starts == s.starts + [ComputeStart(s.now, true)] && t.failedWaits == s.failedWaits + [s.now]
  {
  }
}
