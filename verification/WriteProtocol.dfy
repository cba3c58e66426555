/** The project write protocol as a transition system: any number of jobs on any number
    of projects, each taking the lease lock, reading master documents, computing, and
    writing them back, with their Redis commands interleaved in every possible way.

    Hypotheses of the safety results, as the code needs them:
      - every section, its release included, ends before the lease of its last acquire
        runs out (`LeaseKept`), since the lock is never renewed;
      - a job id runs at most once at a time (one phase per id);
      - the GET and the re-entrant SET of `_try_acquire` are one step (`Probe`). */
module WriteProtocol {
  import opened Wrappers
  import opened LeaseStore
  import opened MasterLock

  type JobId = string
  type Project = string
  type Doc = string
  type Delta = string

  /** The master documents of a project that lock users read and rewrite. */
  datatype Kind = Cps | Prd | Design

  /** `project` maps a job to its scoped project key. `apply` is what a merge makes of the
      document it read: any function at all. */
  datatype Config = Config(project: JobId -> Project, apply: (Delta, Doc) -> Doc)

  datatype Phase =
    | Idle                                               // not running: never started, crashed or over
    | Attempting(deadline: int)                          // about to send SET NX
    | Probing(deadline: int)                             // SET NX was refused: about to GET
    | Waiting(deadline: int)                             // someone else holds the lock
    | Inside(lease: int, ticket: nat, seen: map<Kind, Doc>)
    | Exiting(lease: int, ticket: nat)                   // _release: about to GET
    | Deleting(lease: int, ticket: nat)                  // _release saw its own id: about to DELETE

  /** One write-back: who, in which turn of the lock, to which document, with what delta. */
  datatype Commit = Commit(job: JobId, ticket: nat, slot: (Project, Kind), delta: Delta)

  /** `commits` and `tickets` are history: no step reads them to decide anything. */
  datatype State = State(
    now: int,
    store: Store<string>,
    phases: map<JobId, Phase>,
    master: map<(Project, Kind), Doc>,
    commits: seq<Commit>,
    tickets: nat)

  datatype Step =
    | Tick(elapsed: nat)
    | Start(job: JobId, wait: int)
    | SetNx(job: JobId)
    | Probe(job: JobId)
    | GiveUp(job: JobId)
    | Sleep(job: JobId)
    | Read(job: JobId, kind: Kind)
    | Write(job: JobId, kind: Kind, delta: Delta)
    | Leave(job: JobId)
    | ReleaseGet(job: JobId)
    | ReleaseDel(job: JobId)
    | Crash(job: JobId)

  function PhaseOf(s: State, j: JobId): Phase {
    if j in s.phases then s.phases[j] else Idle
  }

  function Master(s: State, slot: (Project, Kind)): Doc {
    if slot in s.master then s.master[slot] else ""
  }

  function Move(s: State, j: JobId, p: Phase): State {
    s.(phases := s.phases[j := p])
  }

  /** Getting in: the key names the job, with a full lease, and the job draws a ticket. */
  function GoInside(c: Config, s: State, j: JobId): State {
    Move(s, j, Inside(s.now + LOCK_TTL, s.tickets, map[]))
      .(store := Claim(s.store, s.now, c.project(j), j), tickets := s.tickets + 1)
  }

  /** The effect of one step, or None when the step is not enabled. */
  function Next(c: Config, s: State, step: Step): Option<State> {
    match step
    case Tick(elapsed) => Some(s.(now := s.now + elapsed))
    case Start(j, wait) =>
      if PhaseOf(s, j).Idle? then Some(Move(s, j, Attempting(s.now + wait))) else None
    case SetNx(j) =>
      (match PhaseOf(s, j)
       case Attempting(deadline) =>
         if NxSucceeds(s.store, s.now, c.project(j)) then Some(GoInside(c, s, j))
         else Some(Move(s, j, Probing(deadline)))
       case _ => None)
    case Probe(j) =>
      (match PhaseOf(s, j)
       case Probing(deadline) =>
         if IsOwn(s.store, s.now, c.project(j), j) then Some(GoInside(c, s, j))
         else Some(Move(s, j, Waiting(deadline)))
       case _ => None)
    case GiveUp(j) =>
      (match PhaseOf(s, j)
       case Waiting(deadline) => if s.now >= deadline then Some(Move(s, j, Idle)) else None
       case _ => None)
    case Sleep(j) =>
      (match PhaseOf(s, j)
       case Waiting(deadline) => if s.now < deadline then Some(Move(s, j, Attempting(deadline))) else None
       case _ => None)
    case Read(j, k) =>
      (match PhaseOf(s, j)
       case Inside(lease, ticket, seen) =>
         Some(Move(s, j, Inside(lease, ticket, seen[k := Master(s, (c.project(j), k))])))
       case _ => None)
    case Write(j, k, delta) =>
      (match PhaseOf(s, j)
       case Inside(lease, ticket, seen) =>
         if k !in seen then None
         else
           var slot := (c.project(j), k);
           Some(Move(s, j, Inside(lease, ticket, seen - {k}))
                .(master := s.master[slot := c.apply(delta, seen[k])],
                  commits := s.commits + [Commit(j, ticket, slot, delta)]))
       case _ => None)
    case Leave(j) =>
      (match PhaseOf(s, j)
       case Inside(lease, ticket, _) => Some(Move(s, j, Exiting(lease, ticket)))
       case _ => None)
    case ReleaseGet(j) =>
      (match PhaseOf(s, j)
       case Exiting(lease, ticket) =>
         if IsOwn(s.store, s.now, c.project(j), j) then Some(Move(s, j, Deleting(lease, ticket)))
         else Some(Move(s, j, Idle))
       case _ => None)
    case ReleaseDel(j) =>
      (match PhaseOf(s, j)
       case Deleting(_, _) => Some(Move(s, j, Idle).(store := Del(s.store, Key(c.project(j)))))
       case _ => None)
    case Crash(j) =>
      if PhaseOf(s, j).Idle? then None else Some(Move(s, j, Idle))
  }

  ghost predicate Init(s: State) {
    s.store == map[] && s.phases == map[] && s.master == map[] && s.commits == [] && s.tickets == 0
  }

  /** A run: a first state and one state after each step. */
  ghost predicate IsRun(c: Config, steps: seq<Step>, states: seq<State>) {
    && |states| == |steps| + 1
    && Init(states[0])
    && forall i | 0 <= i < |steps| :: Next(c, states[i], steps[i]) == Some(states[i + 1])
  }

  /** Inside the section, or still on the way out of it. */
  predicate Holds(p: Phase) {
    p.Inside? || p.Exiting? || p.Deleting?
  }

  /** No section outlives the lease it entered with. */
  ghost predicate LeaseKept(s: State) {
    forall j | j in s.phases && Holds(s.phases[j]) :: s.now < s.phases[j].lease
  }

  // ---- What a run should amount to -------------------------------------------------

  /** The deltas written to one document, applied one after the other. */
  ghost function Fold(apply: (Delta, Doc) -> Doc, commits: seq<Commit>, slot: (Project, Kind)): Doc {
    if commits == [] then ""
    else
      var last := commits[|commits| - 1];
      var before := Fold(apply, commits[..|commits| - 1], slot);
      if last.slot == slot then apply(last.delta, before) else before
  }

  /** Commits to one project follow the order in which the lock was handed out. */
  ghost predicate InLockOrder(commits: seq<Commit>) {
    forall a, b | 0 <= a < b < |commits| && commits[a].slot.0 == commits[b].slot.0 ::
      commits[a].ticket <= commits[b].ticket
  }

  // ---- The invariant ----------------------------------------------------------------

  /** The job owns its project's key for as long as its lease says. */
  ghost predicate Owns(c: Config, s: State, j: JobId)
    requires Holds(PhaseOf(s, j))
  {
    var key := Key(c.project(j));
    key in s.store && s.store[key] == Entry(j, PhaseOf(s, j).lease)
  }

  ghost predicate KeysNameHolders(c: Config, s: State) {
    forall j | j in s.phases && Holds(s.phases[j]) :: Owns(c, s, j)
  }

  /** The snapshot a job holds is the document as it now stands. */
  ghost predicate SnapshotsCurrent(c: Config, s: State) {
    forall j, k | j in s.phases && s.phases[j].Inside? && k in s.phases[j].seen ::
      s.phases[j].seen[k] == Master(s, (c.project(j), k))
  }

  ghost predicate NothingLost(c: Config, s: State) {
    forall slot :: Master(s, slot) == Fold(c.apply, s.commits, slot)
  }

  /** Tickets in use were handed out, and no commit to a project is newer than its holder's. */
  ghost predicate TicketsOrdered(c: Config, s: State) {
    && InLockOrder(s.commits)
    && (forall i | 0 <= i < |s.commits| :: s.commits[i].ticket < s.tickets)
    && (forall j | j in s.phases && Holds(s.phases[j]) :: s.phases[j].ticket < s.tickets)
    && (forall j, i | j in s.phases && Holds(s.phases[j]) && 0 <= i < |s.commits|
                      && s.commits[i].slot.0 == c.project(j) ::
          s.commits[i].ticket <= s.phases[j].ticket)
  }

  ghost predicate Inv(c: Config, s: State) {
    KeysNameHolders(c, s) && SnapshotsCurrent(c, s) && NothingLost(c, s) && TicketsOrdered(c, s)
  }

  /** Two holders of one project are the same job. */
  lemma HoldersExclusive(c: Config, s: State, j: JobId, k: JobId)
    requires KeysNameHolders(c, s)
    requires Holds(PhaseOf(s, j)) && Holds(PhaseOf(s, k)) && c.project(j) == c.project(k)
    ensures j == k
  {
    assert Owns(c, s, j) && Owns(c, s, k);
  }

  /** A live key with no owner inside: whoever may enter meets no holder of the project. */
  lemma AdmittedMeetsNoHolder(c: Config, s: State, j: JobId, k: JobId)
    requires KeysNameHolders(c, s) && LeaseKept(s)
    requires !Holds(PhaseOf(s, j)) && Admits(s.store, s.now, c.project(j), j)
    requires Holds(PhaseOf(s, k))
    ensures c.project(j) != c.project(k)
  {
    assert Owns(c, s, k);
  }

  lemma StepKeepsKeys(c: Config, s: State, step: Step, t: State)
    requires KeysNameHolders(c, s) && LeaseKept(s) && Next(c, s, step) == Some(t)
    ensures KeysNameHolders(c, t)
  {
    forall k | k in t.phases && Holds(t.phases[k])
      ensures Owns(c, t, k)
    {
      if Holds(PhaseOf(s, k)) {
        assert Owns(c, s, k);
        match step
        case SetNx(j) => if t.tickets != s.tickets { AdmittedMeetsNoHolder(c, s, j, k); Apart(c, j, k); }
        case Probe(j) => if t.tickets != s.tickets { AdmittedMeetsNoHolder(c, s, j, k); Apart(c, j, k); }
        case ReleaseDel(j) =>
          if c.project(j) == c.project(k) { HoldersExclusive(c, s, j, k); } else { Apart(c, j, k); }
        case _ =>
      }
    }
  }

  lemma Apart(c: Config, j: JobId, k: JobId)
    requires c.project(j) != c.project(k)
    ensures Key(c.project(j)) != Key(c.project(k))
  {
    if Key(c.project(j)) == Key(c.project(k)) { KeyInjective(c.project(j), c.project(k)); }
  }

  lemma WriteKeepsSnapshots(c: Config, s: State, step: Step, t: State)
    requires Inv(c, s) && Next(c, s, step) == Some(t) && step.Write?
    ensures SnapshotsCurrent(c, t)
  {
    var j := step.job;
    forall h, k | h in t.phases && t.phases[h].Inside? && k in t.phases[h].seen
      ensures t.phases[h].seen[k] == Master(t, (c.project(h), k))
    {
      if h != j && c.project(h) == c.project(j) { HoldersExclusive(c, s, h, j); }
    }
  }

  /** A snapshot is either one the job had already or one just read. */
  lemma SeenComesFrom(c: Config, s: State, step: Step, t: State, h: JobId, k: Kind)
    requires Next(c, s, step) == Some(t) && !step.Write? && PhaseOf(t, h).Inside? && k in PhaseOf(t, h).seen
    ensures || (PhaseOf(s, h).Inside? && k in PhaseOf(s, h).seen && PhaseOf(t, h).seen[k] == PhaseOf(s, h).seen[k])
            || PhaseOf(t, h).seen[k] == Master(s, (c.project(h), k))
  {
  }

  lemma OnlyWritesWrite(c: Config, s: State, step: Step, t: State)
    requires Next(c, s, step) == Some(t) && !step.Write?
    ensures t.master == s.master && t.commits == s.commits
  {
  }

  lemma OtherStepsKeepSnapshots(c: Config, s: State, step: Step, t: State)
    requires SnapshotsCurrent(c, s) && Next(c, s, step) == Some(t) && !step.Write?
    ensures SnapshotsCurrent(c, t)
  {
    OnlyWritesWrite(c, s, step, t);
    forall h, k | h in t.phases && t.phases[h].Inside? && k in t.phases[h].seen
      ensures t.phases[h].seen[k] == Master(t, (c.project(h), k))
    {
      SeenComesFrom(c, s, step, t, h, k);
    }
  }

  lemma StepLosesNothing(c: Config, s: State, step: Step, t: State)
    requires Inv(c, s) && Next(c, s, step) == Some(t)
    ensures NothingLost(c, t)
  {
    if step.Write? {
      assert t.commits[..|t.commits| - 1] == s.commits;
    }
  }

  lemma WriteKeepsOrder(c: Config, s: State, step: Step, t: State)
    requires Inv(c, s) && Next(c, s, step) == Some(t) && step.Write?
    ensures TicketsOrdered(c, t)
  {
    var j := step.job;
    assert t.tickets == s.tickets && PhaseOf(t, j).ticket == PhaseOf(s, j).ticket;
    assert forall i | 0 <= i < |s.commits| :: t.commits[i] == s.commits[i];
    forall h, i | h in t.phases && Holds(t.phases[h]) && 0 <= i < |t.commits|
                  && t.commits[i].slot.0 == c.project(h)
      ensures t.commits[i].ticket <= t.phases[h].ticket
    {
      if i == |s.commits| && h != j { HoldersExclusive(c, s, h, j); }
    }
  }

  lemma OtherStepsKeepOrder(c: Config, s: State, step: Step, t: State)
    requires Inv(c, s) && Next(c, s, step) == Some(t) && !step.Write?
    ensures TicketsOrdered(c, t)
  {
    assert t.commits == s.commits && s.tickets <= t.tickets;
    forall h | h in t.phases && Holds(t.phases[h])
      ensures t.phases[h].ticket < t.tickets
      ensures t.phases[h].ticket == s.tickets || (Holds(PhaseOf(s, h)) && PhaseOf(s, h).ticket == t.phases[h].ticket)
    {
    }
  }

  lemma StepKeepsInv(c: Config, s: State, step: Step, t: State)
    requires Inv(c, s) && LeaseKept(s) && Next(c, s, step) == Some(t)
    ensures Inv(c, t)
  {
    StepKeepsKeys(c, s, step, t);
    StepLosesNothing(c, s, step, t);
    if step.Write? {
      WriteKeepsSnapshots(c, s, step, t);
      WriteKeepsOrder(c, s, step, t);
    } else {
      OtherStepsKeepSnapshots(c, s, step, t);
      OtherStepsKeepOrder(c, s, step, t);
    }
  }

  lemma {:induction false} RunKeepsInv(c: Config, steps: seq<Step>, states: seq<State>, i: nat)
    requires IsRun(c, steps, states) && i < |states|
    requires forall n | 0 <= n < i :: LeaseKept(states[n])
    ensures Inv(c, states[i])
  {
    if i > 0 {
      RunKeepsInv(c, steps, states, i - 1);
      StepKeepsInv(c, states[i - 1], steps[i - 1], states[i]);
    }
  }

  // ---- Results ----------------------------------------------------------------------

  /** No lost update: in every run that keeps its leases, every master document is the
      fold of every delta ever written to it, in the order the lock was handed out. */
  lemma NoLostUpdate(c: Config, steps: seq<Step>, states: seq<State>)
    requires IsRun(c, steps, states) && forall n | 0 <= n < |states| :: LeaseKept(states[n])
    ensures forall i, slot | 0 <= i < |states| :: Master(states[i], slot) == Fold(c.apply, states[i].commits, slot)
    ensures forall i | 0 <= i < |states| :: InLockOrder(states[i].commits)
  {
    forall i | 0 <= i < |states|
      ensures NothingLost(c, states[i]) && InLockOrder(states[i].commits)
    {
      RunKeepsInv(c, steps, states, i);
    }
  }

  /** Mutual exclusion with ownership: at most one job holds a project, and while it does,
      a GET of the project's key answers with that job's id. */
  lemma MutualExclusion(c: Config, steps: seq<Step>, states: seq<State>, i: nat, j: JobId, k: JobId)
    requires IsRun(c, steps, states) && i < |states| && forall n | 0 <= n < |states| :: LeaseKept(states[n])
    requires Holds(PhaseOf(states[i], j))
    ensures Get(states[i].store, states[i].now, Key(c.project(j))) == Some(j)
    ensures Holds(PhaseOf(states[i], k)) && c.project(j) == c.project(k) ==> j == k
  {
    RunKeepsInv(c, steps, states, i);
    assert Owns(c, states[i], j) && LeaseKept(states[i]);
    if Holds(PhaseOf(states[i], k)) && c.project(j) == c.project(k) { HoldersExclusive(c, states[i], j, k); }
  }

  /** A release always finds its own key, and its DELETE, although sent some time after
      its GET, removes that key and no other job's. */
  lemma ReleaseRemovesOwnKeyOnly(c: Config, steps: seq<Step>, states: seq<State>, i: nat)
    requires IsRun(c, steps, states) && i < |steps| && forall n | 0 <= n < |states| :: LeaseKept(states[n])
    ensures steps[i].ReleaseGet? ==> PhaseOf(states[i + 1], steps[i].job).Deleting?
    ensures steps[i].ReleaseDel? ==>
              Get(states[i].store, states[i].now, Key(c.project(steps[i].job))) == Some(steps[i].job)
    ensures steps[i].ReleaseDel? ==>
              forall p | p != c.project(steps[i].job) ::
                Get(states[i + 1].store, states[i + 1].now, Key(p)) == Get(states[i].store, states[i].now, Key(p))
  {
    if steps[i].ReleaseGet? || steps[i].ReleaseDel? {
      var j := steps[i].job;
      assert Next(c, states[i], steps[i]) == Some(states[i + 1]);
      MutualExclusion(c, steps, states, i, j, j);
      forall p | p != c.project(j) ensures Key(p) != Key(c.project(j)) {
        if Key(p) == Key(c.project(j)) { KeyInjective(p, c.project(j)); }
      }
    }
  }

  /** What a job read is still what the document says when it writes back. */
  lemma WriteSeesCurrentDocument(c: Config, steps: seq<Step>, states: seq<State>, i: nat)
    requires IsRun(c, steps, states) && i < |steps| && forall n | 0 <= n < |states| :: LeaseKept(states[n])
    requires steps[i].Write?
    ensures var slot := (c.project(steps[i].job), steps[i].kind);
            Master(states[i + 1], slot) == c.apply(steps[i].delta, Master(states[i], slot))
  {
    RunKeepsInv(c, steps, states, i);
    assert SnapshotsCurrent(c, states[i]);
  }

  /** A retry of a crashed job whose key is still alive gets in with its first attempt,
      on a fresh lease, instead of waiting for itself. */
  lemma RetryReenters(c: Config, s: State, j: JobId, wait: int)
    requires PhaseOf(s, j).Idle? && Get(s.store, s.now, Key(c.project(j))) == Some(j)
    ensures exists a, b, t ::
              && Next(c, s, Start(j, wait)) == Some(a) && Next(c, a, SetNx(j)) == Some(b)
              && Next(c, b, Probe(j)) == Some(t)
              && PhaseOf(t, j) == Inside(s.now + LOCK_TTL, s.tickets, map[])
              && Get(t.store, s.now + LOCK_TTL - 1, Key(c.project(j))) == Some(j)
  {
    var a := Next(c, s, Start(j, wait)).value;
    var b := Next(c, a, SetNx(j)).value;
    var t := Next(c, b, Probe(j)).value;
    assert Next(c, s, Start(j, wait)) == Some(a) && Next(c, a, SetNx(j)) == Some(b)
        && Next(c, b, Probe(j)) == Some(t);
  }

  /** The lock a crashed job left behind blocks others until its lease ends, and no longer. */
  lemma CrashedLockExpires(c: Config, steps: seq<Step>, states: seq<State>, i: nat, dead: JobId, j: JobId, wait: nat)
    requires IsRun(c, steps, states) && i < |states| && forall n | 0 <= n < |states| :: LeaseKept(states[n])
    requires Holds(PhaseOf(states[i], dead)) && c.project(dead) == c.project(j)
    requires PhaseOf(states[i], j).Attempting?
    ensures Next(c, states[i], Crash(dead)).Some?
    ensures var t := Next(c, states[i], Crash(dead)).value.(now := states[i].now + wait);
            && Next(c, t, SetNx(j)).Some?
            && (PhaseOf(Next(c, t, SetNx(j)).value, j).Inside? <==> t.now >= PhaseOf(states[i], dead).lease)
  {
    RunKeepsInv(c, steps, states, i);
    assert Owns(c, states[i], dead);
  }

  // ---- Why the lease hypothesis is there -------------------------------------------

  /** Some run goes on from s, by whatever steps, to t. */
  ghost predicate LeadsTo(c: Config, s: State, more: seq<Step>, t: State)
    decreases |more|
  {
    if more == [] then s == t
    else Next(c, s, more[0]).Some? && LeadsTo(c, Next(c, s, more[0]).value, more[1..], t)
  }

  lemma LeadsOn(c: Config, s: State, step: Step, u: State, more: seq<Step>, t: State)
    requires Next(c, s, step) == Some(u) && LeadsTo(c, u, more, t)
    ensures LeadsTo(c, s, [step] + more, t)
  {
    assert ([step] + more)[1..] == more;
  }

  /** A run followed by such steps is a run. */
  lemma {:induction false} RunGoesOn(c: Config, steps: seq<Step>, states: seq<State>, more: seq<Step>, t: State)
    returns (states': seq<State>)
    requires IsRun(c, steps, states) && LeadsTo(c, states[|steps|], more, t)
    ensures IsRun(c, steps + more, states') && states <= states' && states'[|steps + more|] == t
    decreases |more|
  {
    if more == [] {
      states' := states;
      assert steps + more == steps;
    } else {
      var u := Next(c, states[|steps|], more[0]).value;
      var steps1, states1 := steps + [more[0]], states + [u];
      forall i | 0 <= i < |steps1| ensures Next(c, states1[i], steps1[i]) == Some(states1[i + 1]) {
        if i < |steps| { assert Next(c, states[i], steps[i]) == Some(states[i + 1]); }
      }
      states' := RunGoesOn(c, steps1, states1, more[1..], t);
      assert steps1 + more[1..] == steps + more;
    }
  }

  /** Writing y over a document that does not have x yet is not writing both. */
  predicate Matters(c: Config, x: Delta, y: Delta, doc: Doc) {
    c.apply(y, doc) != c.apply(y, c.apply(x, doc))
  }

  /** A document no longer is the fold of what was written to it. */
  ghost predicate HasLost(c: Config, s: State, slot: (Project, Kind)) {
    Master(s, slot) != Fold(c.apply, s.commits, slot)
  }

  lemma ReadStep(c: Config, s: State, j: JobId, kind: Kind) returns (t: State)
    requires PhaseOf(s, j).Inside?
    ensures Next(c, s, Read(j, kind)) == Some(t)
    ensures PhaseOf(t, j).Inside? && kind in PhaseOf(t, j).seen
    ensures PhaseOf(t, j).seen[kind] == Master(s, (c.project(j), kind))
    ensures t.master == s.master && t.commits == s.commits && forall k | k != j :: PhaseOf(t, k) == PhaseOf(s, k)
  {
    t := Next(c, s, Read(j, kind)).value;
  }

  lemma WriteStep(c: Config, s: State, j: JobId, kind: Kind, delta: Delta) returns (t: State)
    requires PhaseOf(s, j).Inside? && kind in PhaseOf(s, j).seen
    ensures Next(c, s, Write(j, kind, delta)) == Some(t)
    ensures var slot := (c.project(j), kind);
            && Master(t, slot) == c.apply(delta, PhaseOf(s, j).seen[kind])
            && Fold(c.apply, t.commits, slot) == c.apply(delta, Fold(c.apply, s.commits, slot))
    ensures forall k | k != j :: PhaseOf(t, k) == PhaseOf(s, k)
  {
    t := Next(c, s, Write(j, kind, delta)).value;
    assert t.commits[..|t.commits| - 1] == s.commits;
  }

  /** Two jobs inside one project, whatever the key says: both read, both write, and the
      first delta is gone. */
  lemma TwoInsideLose(c: Config, s: State, j: JobId, k: JobId, kind: Kind, x: Delta, y: Delta)
    returns (more: seq<Step>, t: State)
    requires j != k && c.project(j) == c.project(k) && PhaseOf(s, j).Inside? && PhaseOf(s, k).Inside?
    requires !HasLost(c, s, (c.project(j), kind)) && Matters(c, x, y, Master(s, (c.project(j), kind)))
    ensures LeadsTo(c, s, more, t) && HasLost(c, t, (c.project(j), kind))
  {
    var s1 := ReadStep(c, s, j, kind);
    var s2 := ReadStep(c, s1, k, kind);
    var s3 := WriteStep(c, s2, j, kind, x);
    t := WriteStep(c, s3, k, kind, y);
    LeadsOn(c, s3, Write(k, kind, y), t, [], t);
    LeadsOn(c, s2, Write(j, kind, x), s3, [Write(k, kind, y)], t);
    more := [Write(j, kind, x)] + [Write(k, kind, y)];
    LeadsOn(c, s1, Read(k, kind), s2, more, t);
    more := [Read(k, kind)] + more;
    LeadsOn(c, s, Read(j, kind), s1, more, t);
    more := [Read(j, kind)] + more;
  }

  /** A free key lets the next job in, whoever is still inside. */
  lemma EntersFree(c: Config, s: State, k: JobId) returns (u: State, t: State)
    requires PhaseOf(s, k).Idle? && NxSucceeds(s.store, s.now, c.project(k))
    ensures Next(c, s, Start(k, 0)) == Some(u) && Next(c, u, SetNx(k)) == Some(t)
    ensures PhaseOf(t, k).Inside? && t.now == s.now && t.master == s.master && t.commits == s.commits
    ensures forall j | j != k :: PhaseOf(t, j) == PhaseOf(s, j)
  {
    u := Next(c, s, Start(k, 0)).value;
    t := Next(c, u, SetNx(k)).value;
  }

  /** Every run in which the leases were kept so far can lose a delta as soon as a job is
      inside at or past its lease: another job of the project, not running, gets in at its
      first attempt, and of two deltas that matter only one survives. */
  lemma OverrunLosesUpdate(c: Config, steps: seq<Step>, states: seq<State>, j: JobId, k: JobId,
                           kind: Kind, x: Delta, y: Delta)
    returns (steps': seq<Step>, states': seq<State>)
    requires IsRun(c, steps, states) && forall n | 0 <= n < |steps| :: LeaseKept(states[n])
    requires var s := states[|steps|];
             && PhaseOf(s, j).Inside? && s.now >= PhaseOf(s, j).lease
             && k != j && c.project(k) == c.project(j) && PhaseOf(s, k).Idle?
             && Matters(c, x, y, Master(s, (c.project(j), kind)))
    ensures IsRun(c, steps', states') && steps <= steps' && states <= states'
    ensures HasLost(c, states'[|steps'|], (c.project(j), kind))
  {
    var s := states[|steps|];
    RunKeepsInv(c, steps, states, |steps|);
    assert Owns(c, s, j);
    var u, t := EntersFree(c, s, k);
    var more, end := TwoInsideLose(c, t, j, k, kind, x, y);
    LeadsOn(c, u, SetNx(k), t, more, end);
    more := [SetNx(k)] + more;
    LeadsOn(c, s, Start(k, 0), u, more, end);
    more := [Start(k, 0)] + more;
    states' := RunGoesOn(c, steps, states, more, end);
    steps' := steps + more;
  }

  /** The release needs its lease as much: a DELETE sent at or past it, after another job
      has got in, takes that job's key away and lets a third one in beside it. */
  lemma LateDeleteLosesUpdate(c: Config, steps: seq<Step>, states: seq<State>, j: JobId, k: JobId, l: JobId,
                              kind: Kind, x: Delta, y: Delta)
    returns (steps': seq<Step>, states': seq<State>)
    requires IsRun(c, steps, states) && forall n | 0 <= n < |steps| :: LeaseKept(states[n])
    requires var s := states[|steps|];
             && PhaseOf(s, j).Deleting? && s.now >= PhaseOf(s, j).lease
             && j != k && j != l && k != l && c.project(j) == c.project(k) == c.project(l)
             && PhaseOf(s, k).Idle? && PhaseOf(s, l).Idle?
             && Matters(c, x, y, Master(s, (c.project(j), kind)))
    ensures IsRun(c, steps', states') && steps <= steps' && states <= states'
    ensures HasLost(c, states'[|steps'|], (c.project(j), kind))
  {
    var s := states[|steps|];
    RunKeepsInv(c, steps, states, |steps|);
    assert Owns(c, s, j);
    var u, t := EntersFree(c, s, k);
    var v := Next(c, t, ReleaseDel(j)).value;
    assert Get(v.store, v.now, Key(c.project(l))).None?;
    var w, z := EntersFree(c, v, l);
    var more, end := TwoInsideLose(c, z, k, l, kind, x, y);
    LeadsOn(c, w, SetNx(l), z, more, end);
    more := [SetNx(l)] + more;
    LeadsOn(c, v, Start(l, 0), w, more, end);
    more := [Start(l, 0)] + more;
    LeadsOn(c, t, ReleaseDel(j), v, more, end);
    more := [ReleaseDel(j)] + more;
    LeadsOn(c, u, SetNx(k), t, more, end);
    more := [SetNx(k)] + more;
    LeadsOn(c, s, Start(k, 0), u, more, end);
    more := [Start(k, 0)] + more;
    states' := RunGoesOn(c, steps, states, more, end);
    steps' := steps + more;
  }

  // ---- What a job can do ---------------------------------------------------------------

  /** Each step is possible at exactly one point of a job, and nothing else stands in its
      way; a waiting job gives up from its deadline on and tries again before it. */
  lemma EnabledExactlyWhen(c: Config, s: State, step: Step)
    ensures Next(c, s, step).Some? <==>
            match step
            case Tick(_) => true
            case Start(j, _) => PhaseOf(s, j).Idle?
            case SetNx(j) => PhaseOf(s, j).Attempting?
            case Probe(j) => PhaseOf(s, j).Probing?
            case GiveUp(j) => PhaseOf(s, j).Waiting? && s.now >= PhaseOf(s, j).deadline
            case Sleep(j) => PhaseOf(s, j).Waiting? && s.now < PhaseOf(s, j).deadline
            case Read(j, _) => PhaseOf(s, j).Inside?
            case Write(j, k, _) => PhaseOf(s, j).Inside? && k in PhaseOf(s, j).seen
            case Leave(j) => PhaseOf(s, j).Inside?
            case ReleaseGet(j) => PhaseOf(s, j).Exiting?
            case ReleaseDel(j) => PhaseOf(s, j).Deleting?
            case Crash(j) => !PhaseOf(s, j).Idle?
    ensures step.Tick? ==> Next(c, s, step) == Some(s.(now := s.now + step.elapsed))
  {
  }

  lemma {:induction false} TimeGoesOn(c: Config, steps: seq<Step>, states: seq<State>, m: nat, i: nat)
    requires IsRun(c, steps, states) && m <= i < |states|
    ensures states[m].now <= states[i].now
  {
    if m < i {
      TimeGoesOn(c, steps, states, m, i - 1);
      assert Next(c, states[i - 1], steps[i - 1]) == Some(states[i]);
    }
  }

  /** A job that is trying to get in. */
  predicate Trying(p: Phase) {
    p.Attempting? || p.Probing? || p.Waiting?
  }

  /** Step m started the job that is trying at state i, and set its deadline. */
  ghost predicate StartedAt(steps: seq<Step>, states: seq<State>, m: nat, i: nat, j: JobId)
    requires i < |states| == |steps| + 1
  {
    && m < i && steps[m].Start? && steps[m].job == j && Trying(PhaseOf(states[i], j))
    && PhaseOf(states[i], j).deadline == states[m].now + steps[m].wait
  }

  lemma TryingStep(c: Config, s: State, step: Step, t: State, j: JobId)
    requires Next(c, s, step) == Some(t) && Trying(PhaseOf(t, j))
    ensures || (Trying(PhaseOf(s, j)) && PhaseOf(t, j).deadline == PhaseOf(s, j).deadline)
            || (step.Start? && step.job == j && PhaseOf(t, j).deadline == s.now + step.wait)
  {
  }

  lemma {:induction false} DeadlineFromStart(c: Config, steps: seq<Step>, states: seq<State>, i: nat, j: JobId) returns (m: nat)
    requires IsRun(c, steps, states) && i < |states| && Trying(PhaseOf(states[i], j))
    ensures StartedAt(steps, states, m, i, j)
  {
    assert i > 0;
    TryingStep(c, states[i - 1], steps[i - 1], states[i], j);
    if Trying(PhaseOf(states[i - 1], j)) && PhaseOf(states[i], j).deadline == PhaseOf(states[i - 1], j).deadline {
      m := DeadlineFromStart(c, steps, states, i - 1, j);
    } else {
      m := i - 1;
    }
  }

  /** A job gives up only when its whole wait is over. */
  lemma GivesUpAfterWait(c: Config, steps: seq<Step>, states: seq<State>, i: nat) returns (m: nat)
    requires IsRun(c, steps, states) && i < |steps| && steps[i].GiveUp?
    ensures m < i && steps[m].Start? && steps[m].job == steps[i].job
    ensures states[i].now >= states[m].now + steps[m].wait
  {
    assert Next(c, states[i], steps[i]) == Some(states[i + 1]);
    m := DeadlineFromStart(c, steps, states, i, steps[i].job);
  }

  /** An attempt in its two commands is the lock's attempt in one piece: the job is inside,
      with the key claimed, exactly when that admits it; otherwise it waits, nothing has been
      written, and after its sleep it tries again with the same deadline. */
  lemma LoneAttempt(c: Config, s: State, j: JobId) returns (t: State)
    requires PhaseOf(s, j).Attempting?
    ensures Next(c, s, SetNx(j)).Some?
    ensures var u := Next(c, s, SetNx(j)).value;
            if NxSucceeds(s.store, s.now, c.project(j)) then t == u else Next(c, u, Probe(j)) == Some(t)
    ensures Admits(s.store, s.now, c.project(j), j) ==>
              PhaseOf(t, j) == Inside(s.now + LOCK_TTL, s.tickets, map[]) && t.store == Claim(s.store, s.now, c.project(j), j)
    ensures !Admits(s.store, s.now, c.project(j), j) ==>
              && PhaseOf(t, j) == Waiting(PhaseOf(s, j).deadline) && t.store == s.store
              && (s.now < PhaseOf(s, j).deadline ==>
                    Next(c, t, Sleep(j)).Some? && PhaseOf(Next(c, t, Sleep(j)).value, j) == PhaseOf(s, j))
              && (s.now >= PhaseOf(s, j).deadline ==>
                    Next(c, t, GiveUp(j)).Some? && PhaseOf(Next(c, t, GiveUp(j)).value, j) == Idle)
  {
    var u := Next(c, s, SetNx(j)).value;
    t := if NxSucceeds(s.store, s.now, c.project(j)) then u else Next(c, u, Probe(j)).value;
  }

  lemma SectionBegins(c: Config, s: State, j: JobId, wait: int) returns (u: State, t: State)
    requires PhaseOf(s, j).Idle? && NxSucceeds(s.store, s.now, c.project(j))
    ensures Next(c, s, Start(j, wait)) == Some(u) && Next(c, u, SetNx(j)) == Some(t)
    ensures PhaseOf(t, j).Inside? && t.now == s.now && t.master == s.master && t.commits == s.commits
    ensures t.store == Claim(s.store, s.now, c.project(j), j)
  {
    u := Next(c, s, Start(j, wait)).value;
    t := Next(c, u, SetNx(j)).value;
  }

  lemma SectionEnds(c: Config, s: State, j: JobId) returns (u: State, v: State, t: State)
    requires PhaseOf(s, j).Inside? && IsOwn(s.store, s.now, c.project(j), j)
    ensures Next(c, s, Leave(j)) == Some(u) && Next(c, u, ReleaseGet(j)) == Some(v) && Next(c, v, ReleaseDel(j)) == Some(t)
    ensures PhaseOf(t, j).Idle? && t.now == s.now && t.master == s.master && t.commits == s.commits
    ensures t.store == Del(s.store, Key(c.project(j)))
  {
    u := Next(c, s, Leave(j)).value;
    v := Next(c, u, ReleaseGet(j)).value;
    t := Next(c, v, ReleaseDel(j)).value;
  }

  lemma SectionWrites(c: Config, s: State, j: JobId, kind: Kind, delta: Delta) returns (u: State, t: State)
    requires PhaseOf(s, j).Inside?
    ensures Next(c, s, Read(j, kind)) == Some(u) && Next(c, u, Write(j, kind, delta)) == Some(t)
    ensures PhaseOf(t, j).Inside? && t.now == s.now && t.store == s.store
    ensures var slot := (c.project(j), kind); t.master == s.master[slot := c.apply(delta, Master(s, slot))]
  {
    u := Next(c, s, Read(j, kind)).value;
    t := Next(c, u, Write(j, kind, delta)).value;
  }

  /** A section by itself: the merge of what it read is what the document then is, no other
      document moves, the job is over and the key free. */
  lemma LoneSection(c: Config, s: State, j: JobId, wait: int, kind: Kind, delta: Delta) returns (t: State)
    requires PhaseOf(s, j).Idle? && NxSucceeds(s.store, s.now, c.project(j))
    ensures LeadsTo(c, s, [Start(j, wait), SetNx(j), Read(j, kind), Write(j, kind, delta), Leave(j), ReleaseGet(j), ReleaseDel(j)], t)
    ensures var slot := (c.project(j), kind); t.master == s.master[slot := c.apply(delta, Master(s, slot))]
    ensures PhaseOf(t, j).Idle? && t.now == s.now && NxSucceeds(t.store, t.now, c.project(j))
  {
    var s1, s2 := SectionBegins(c, s, j, wait);
    var s3, s4 := SectionWrites(c, s2, j, kind, delta);
    var s5, s6, s7 := SectionEnds(c, s4, j);
    t := s7;
    LeadsOn(c, s6, ReleaseDel(j), t, [], t);
    LeadsOn(c, s5, ReleaseGet(j), s6, [ReleaseDel(j)], t);
    LeadsOn(c, s4, Leave(j), s5, [ReleaseGet(j), ReleaseDel(j)], t);
    LeadsOn(c, s3, Write(j, kind, delta), s4, [Leave(j), ReleaseGet(j), ReleaseDel(j)], t);
    LeadsOn(c, s2, Read(j, kind), s3, [Write(j, kind, delta), Leave(j), ReleaseGet(j), ReleaseDel(j)], t);
    LeadsOn(c, s1, SetNx(j), s2, [Read(j, kind), Write(j, kind, delta), Leave(j), ReleaseGet(j), ReleaseDel(j)], t);
    LeadsOn(c, s, Start(j, wait), s1,
            [SetNx(j), Read(j, kind), Write(j, kind, delta), Leave(j), ReleaseGet(j), ReleaseDel(j)], t);
  }
}
