/** The admission gates: one ZSET of running task ids per account and one per project,
    scored by enqueue time, and `_enqueue`, which takes one of each. Times in
    milliseconds. */
module InflightGate {
  import opened Wrappers

  const STALE_AGE := 1_500_000
  const CONCURRENCY_LIMIT := 2

  const HEAVY_JOBS := {
    "post_meeting_pipeline_job", "cps_pipeline_job", "prd_pipeline_job", "design_pipeline_job",
    "run_lint_job", "generate_fix_spec_job", "create_md_job", "recommend_skills_job",
    "autofill_api_specs_job"}

  const MASTER_WRITE_JOBS := {
    "post_meeting_pipeline_job", "cps_pipeline_job", "prd_pipeline_job", "delete_meeting_job",
    "design_pipeline_job", "autofill_api_specs_job"}

  type Members = map<string, int>

  /** A ZSET and the expiry time of its key, if it has one. */
  datatype ZSet = ZSet(members: Members, expiry: Option<int>)

  const EMPTY := ZSet(map[], None)

  /** What Redis still has at time `now`. */
  function Live(z: ZSet, now: int): Members {
    if z.expiry.Some? && z.expiry.value <= now then map[] else z.members
  }

  /** ZREMRANGEBYSCORE key -inf (now - STALE_AGE) */
  function Purge(z: ZSet, clock: int, now: int): ZSet {
    var live := Live(z, clock);
    ZSet(map t | t in live && live[t] > now - STALE_AGE :: live[t], z.expiry)
  }

  /** A ZSCORE Python takes for true: there, and not zero. */
  predicate Scored(m: Members, task: string) {
    task in m && m[task] != 0
  }

  /** ZADD: a key that was empty or had lapsed is a new one, without an expiry. */
  function ZAdd(z: ZSet, clock: int, score: int, task: string): ZSet {
    var live := Live(z, clock);
    ZSet(live[task := score], if live == map[] then None else z.expiry)
  }

  /** EXPIRE, which does nothing where there is no key. */
  function Expire(z: ZSet, clock: int): ZSet {
    if Live(z, clock) == map[] then z else z.(expiry := Some(clock + 2 * STALE_AGE))
  }

  /** ZADD and EXPIRE together, at clock time `clock` with score `score`. */
  function Add(z: ZSet, clock: int, score: int, task: string): (r: ZSet)
    ensures r == ZSet(Live(z, clock)[task := score], Some(clock + 2 * STALE_AGE))
  {
    assert task in ZAdd(z, clock, score, task).members;
    Expire(ZAdd(z, clock, score, task), clock)
  }

  /** ZREM */
  function Remove(z: ZSet, clock: int, task: string): ZSet {
    z.(members := Live(z, clock) - {task})
  }

  /** The members an acquire at `now` still counts: those younger than the stale age. */
  ghost function Young(z: ZSet, now: int): Members {
    map t | t in z.members && (z.expiry.Some? ==> now < z.expiry.value) && now < z.members[t] + STALE_AGE :: z.members[t]
  }

  /** There is room, or the task has a place already. A score of zero does not show. */
  ghost predicate HasRoom(z: ZSet, now: int, limit: int, task: string) {
    |Young(z, now)| < limit || (task in Young(z, now) && Young(z, now)[task] != 0)
  }

  /** An acquire run without interference: whether it is admitted, and the set it leaves. */
  predicate Admitted(z: ZSet, now: int, limit: int, task: string) {
    var left := Live(Purge(z, now, now), now);
    |left| < limit || Scored(left, task)
  }

  function Acquired(z: ZSet, now: int, limit: int, task: string): ZSet {
    if Admitted(z, now, limit, task) then Add(Purge(z, now, now), now, now, task) else Purge(z, now, now)
  }

  /** Slots of other tasks that an acquire drops are stale ones. */
  lemma AcquireKeepsYoung(z: ZSet, now: int, limit: int, task: string)
    ensures forall t | t != task && t in Live(z, now) ::
              t in Live(Acquired(z, now, limit, task), now) || Live(z, now)[t] <= now - STALE_AGE
    ensures Admitted(z, now, limit, task) ==> task in Live(Acquired(z, now, limit, task), now)
  {
  }

  lemma PurgeLeavesYoung(z: ZSet, now: int)
    ensures Live(Purge(z, now, now), now) == Young(z, now)
  {
  }

  /** An acquire gets in exactly when the young members are fewer than the limit or the task
      is one of them; it leaves the young members, and itself if it got in, with its own
      time as score and the key alive for two stale ages. */
  lemma AcquireMeans(z: ZSet, now: int, limit: int, task: string)
    ensures Admitted(z, now, limit, task) <==> HasRoom(z, now, limit, task)
    ensures forall later | now <= later < now + 2 * STALE_AGE && HasRoom(z, now, limit, task) ::
              Live(Acquired(z, now, limit, task), later) == Young(z, now)[task := now]
    ensures forall later | now + 2 * STALE_AGE <= later && HasRoom(z, now, limit, task) ::
              Live(Acquired(z, now, limit, task), later) == map[]
    ensures !HasRoom(z, now, limit, task) ==> Live(Acquired(z, now, limit, task), now) == Young(z, now)
  {
    PurgeLeavesYoung(z, now);
  }

  /** A slot that was never released is out of the way of the first acquire at or after
      its score plus the stale age, and younger ones are all kept. */
  lemma StaleSlotsReclaimed(z: ZSet, now: int, limit: int, task: string, t: string)
    requires t in Live(z, now) && t != task
    ensures t in Live(Acquired(z, now, limit, task), now) <==> now < Live(z, now)[t] + STALE_AGE
    ensures Admitted(z, now, limit, task) ==> task in Live(Acquired(z, now, limit, task), now)
    ensures !Admitted(z, now, limit, task) && task !in Live(z, now) ==>
              task !in Live(Acquired(z, now, limit, task), now)
  {
  }

  /** One acquire at a time keeps the set within its limit. */
  lemma AtomicAcquireKeepsLimit(z: ZSet, now: int, limit: nat, task: string)
    requires |Live(z, now)| <= limit
    ensures |Live(Acquired(z, now, limit, task), now)| <= limit
    ensures Admitted(z, now, limit, task) ==> |Live(Acquired(z, now, limit, task), now)| > 0
  {
    var left := Live(Purge(z, now, now), now);
    assert left.Keys <= Live(z, now).Keys;
    SubsetSmaller(left.Keys, Live(z, now).Keys);
    if Scored(left, task) {
      assert left[task := now].Keys == left.Keys;
    } else {
      assert left[task := now].Keys == left.Keys + {task};
    }
    assert Live(Add(Purge(z, now, now), now, now, task), now) == left[task := now];
  }

  lemma {:induction false} SubsetSmaller<T>(a: set<T>, b: set<T>)
    requires a <= b
    ensures |a| <= |b|
  {
    if a != {} {
      var x :| x in a;
      SubsetSmaller(a - {x}, b - {x});
    }
  }

  // ---- The gates as the code keeps them ---------------------------------------------

  datatype Verdict = Enqueued | QueueFailed | TooMany | ProjectBusy

  class Gates {
    var accounts: map<string, ZSet>
    var projects: map<string, ZSet>

    constructor ()
      ensures accounts == map[] && projects == map[]
    {
      accounts, projects := map[], map[];
    }

    function Account(email: string): ZSet
      reads this
    {
      if email in accounts then accounts[email] else EMPTY
    }

    function Project(key: string): ZSet
      reads this
    {
      if key in projects then projects[key] else EMPTY
    }

    method TryAcquireSlot(email: string, task: string, limit: int, now: int) returns (ok: bool)
      modifies this`accounts
      ensures email == "" ==> ok && accounts == old(accounts)
      ensures email != "" ==>
                && ok == HasRoom(old(Account(email)), now, limit, task)
                && Live(Account(email), now) == (if ok then Young(old(Account(email)), now)[task := now]
                                                 else Young(old(Account(email)), now))
                && accounts == old(accounts)[email := Acquired(old(Account(email)), now, limit, task)]
    {
      if email == "" { return true; }
      AcquireMeans(Account(email), now, limit, task);
      var z := Purge(Account(email), now, now);
      accounts := accounts[email := z];
      var count := |Live(z, now)|;
      if count >= limit && !Scored(Live(z, now), task) {
        return false;
      }
      accounts := accounts[email := ZAdd(z, now, now, task)];
      accounts := accounts[email := Expire(accounts[email], now)];
      return true;
    }

    method ReleaseSlot(email: string, task: string, now: int)
      modifies this`accounts
      ensures email == "" ==> accounts == old(accounts)
      ensures email != "" ==>
                && Live(Account(email), now) == Live(old(Account(email)), now) - {task}
                && accounts == old(accounts)[email := Remove(old(Account(email)), now, task)]
    {
      if email != "" {
        accounts := accounts[email := Remove(Account(email), now, task)];
      }
    }

    method TryAcquireProject(key: string, task: string, now: int) returns (ok: bool)
      modifies this`projects
      ensures key == "" ==> ok && projects == old(projects)
      ensures key != "" ==>
                && ok == HasRoom(old(Project(key)), now, 1, task)
                && Live(Project(key), now) == (if ok then Young(old(Project(key)), now)[task := now]
                                               else Young(old(Project(key)), now))
                && projects == old(projects)[key := Acquired(old(Project(key)), now, 1, task)]
    {
      if key == "" { return true; }
      AcquireMeans(Project(key), now, 1, task);
      var z := Purge(Project(key), now, now);
      projects := projects[key := z];
      if |Live(z, now)| >= 1 && !Scored(Live(z, now), task) {
        return false;
      }
      projects := projects[key := ZAdd(z, now, now, task)];
      projects := projects[key := Expire(projects[key], now)];
      return true;
    }

    method IsProjectBusy(key: string, now: int) returns (busy: bool)
      modifies this`projects
      ensures busy <==> key != "" && Young(old(Project(key)), now) != map[]
      ensures forall k | k != key :: Project(k) == old(Project(k))
      ensures key != "" ==> Project(key) == Purge(old(Project(key)), now, now)
    {
      if key == "" { return false; }
      var z := Purge(Project(key), now, now);
      projects := projects[key := z];
      busy := |Live(z, now)| > 0;
      PurgeLeavesYoung(old(Project(key)), now);
      if !busy { assert Live(z, now) == map[]; }
    }

    method ReleaseProject(key: string, task: string, now: int)
      modifies this`projects
      ensures key == "" ==> projects == old(projects)
      ensures key != "" ==>
                && Live(Project(key), now) == Live(old(Project(key)), now) - {task}
                && projects == old(projects)[key := Remove(old(Project(key)), now, task)]
    {
      if key != "" {
        projects := projects[key := Remove(Project(key), now, task)];
      }
    }

    /** `_enqueue` up to and including the hand-over to the queue; `queueOk` is whether
        that hand-over raises nothing. */
    method Enqueue(function_: string, task: string, email: string, project: string, now: int, queueOk: bool)
      returns (verdict: Verdict)
      modifies this
      ensures var slot := function_ in HEAVY_JOBS && email != "";
              var mark := function_ in MASTER_WRITE_JOBS && email != "";
              && (verdict == TooMany <==>
                    slot && !HasRoom(old(Account(email)), now, CONCURRENCY_LIMIT, task))
              && (verdict == ProjectBusy <==>
                    verdict != TooMany && mark && project != "" && !HasRoom(old(Project(project)), now, 1, task))
              && (verdict == Enqueued <==> verdict != TooMany && verdict != ProjectBusy && queueOk)
              && (verdict in {Enqueued, QueueFailed} && slot ==> task in Live(Account(email), now))
              && (verdict in {Enqueued, QueueFailed} && mark && project != "" ==> task in Live(Project(project), now))
      ensures verdict in {TooMany, ProjectBusy} && task !in Live(old(Account(email)), now)
                && task !in Live(old(Project(project)), now) ==>
              task !in Live(Account(email), now) && task !in Live(Project(project), now)
      // a 409 also takes away a slot the same task id already had, whoever holds it
      ensures verdict == ProjectBusy ==> task !in Live(Account(email), now)
      ensures forall t | t != task && t in Live(old(Account(email)), now) ::
                t in Live(Account(email), now) ||
                (function_ in HEAVY_JOBS && Live(old(Account(email)), now)[t] <= now - STALE_AGE)
      ensures accounts == AccountsAfter(verdict, old(accounts), old(Account(email)), function_, task, email, now)
      ensures projects == if function_ in MASTER_WRITE_JOBS && email != "" && project != "" && verdict != TooMany
                          then old(projects)[project := Acquired(old(Project(project)), now, 1, task)]
                          else old(projects)
    {
      ghost var z, y := Account(email), Project(project);
      var refused := PassGates(function_, task, email, project, now);
      AcquireKeepsYoung(z, now, CONCURRENCY_LIMIT, task);
      AcquireKeepsYoung(y, now, 1, task);
      AcquireMeans(z, now, CONCURRENCY_LIMIT, task);
      AcquireMeans(y, now, 1, task);
      if refused.Some? { return refused.value; }
      return if queueOk then Enqueued else QueueFailed;
    }

    /** The two gates of `_enqueue`: which of them refuses, if one does. */
    method PassGates(function_: string, task: string, email: string, project: string, now: int)
      returns (refused: Option<Verdict>)
      modifies this
      ensures var slot := function_ in HEAVY_JOBS && email != "";
              var mark := function_ in MASTER_WRITE_JOBS && email != "" && project != "";
              refused == if slot && !HasRoom(old(Account(email)), now, CONCURRENCY_LIMIT, task) then Some(TooMany)
                         else if mark && !HasRoom(old(Project(project)), now, 1, task) then Some(ProjectBusy)
                         else None
      ensures accounts == AccountsAfter(if refused.Some? then refused.value else Enqueued,
                                        old(accounts), old(Account(email)), function_, task, email, now)
      ensures projects == if function_ in MASTER_WRITE_JOBS && email != "" && project != "" && refused != Some(TooMany)
                          then old(projects)[project := Acquired(old(Project(project)), now, 1, task)]
                          else old(projects)
    {
      if function_ in HEAVY_JOBS && email != "" {
        var ok := TryAcquireSlot(email, task, CONCURRENCY_LIMIT, now);
        if !ok { return Some(TooMany); }
      }
      if function_ in MASTER_WRITE_JOBS && email != "" {
        var ok := TryAcquireProject(project, task, now);
        if !ok {
          ReleaseSlot(email, task, now);
          return Some(ProjectBusy);
        }
      }
      return None;
    }
  }

  /** The account sets an enqueue leaves: as acquired, and with the slot given back on a 409. */
  ghost function AccountsAfter(v: Verdict, accounts: map<string, ZSet>, z: ZSet, function_: string,
                               task: string, email: string, now: int): map<string, ZSet>
  {
    var acquired := if function_ in HEAVY_JOBS && email != "" then Acquired(z, now, CONCURRENCY_LIMIT, task) else z;
    if v == ProjectBusy then accounts[email := Remove(acquired, now, task)]
    else if function_ in HEAVY_JOBS && email != "" then accounts[email := acquired]
    else accounts
  }

  /** A 409 leaves the other tasks' slots alone and keeps nothing of its own; it leaves
      the account exactly as the purge would exactly when the task id had no slot to lose. */
  lemma BusyProjectGivesSlotBack(z: ZSet, now: int, task: string)
    requires Admitted(z, now, CONCURRENCY_LIMIT, task)
    ensures var left := Live(Remove(Acquired(z, now, CONCURRENCY_LIMIT, task), now, task), now);
            left == Live(Purge(z, now, now), now) <==> task !in Live(Purge(z, now, now), now)
  {
    var purged := Live(Purge(z, now, now), now);
    var left := Live(Remove(Acquired(z, now, CONCURRENCY_LIMIT, task), now, task), now);
    assert left == purged - {task};
  }
}
