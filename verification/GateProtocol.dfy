/** One admission gate under concurrent enqueues: purge, count, member test, add and the
    EXPIRE of the key are separate Redis commands, and commands of different acquirers, releases, crashes and
    the clock interleave freely. */
module GateProtocol {
  import opened Wrappers
  import opened InflightGate

  /** `at` is the `time.time()` the acquirer read first and uses throughout. */
  datatype Phase =
    | Purging(task: string, at: int)
    | Counting(task: string, at: int)
    | Testing(task: string, at: int)
    | Adding(task: string, at: int)
    | Expiring(task: string, at: int)

  datatype State = State(now: int, slots: ZSet, acquirers: map<nat, Phase>)

  datatype Step =
    | Tick(elapsed: nat)
    | Begin(p: nat, task: string)
    | PurgeStale(p: nat)
    | Count(p: nat)
    | Test(p: nat)
    | AddSlot(p: nat)
    | SetExpiry(p: nat)
    | Release(task: string)
    | Crash(p: nat)

  function Next(limit: int, s: State, step: Step): Option<State> {
    match step
    case Tick(elapsed) => Some(s.(now := s.now + elapsed))
    case Begin(p, task) =>
      if p in s.acquirers then None else Some(s.(acquirers := s.acquirers[p := Purging(task, s.now)]))
    case PurgeStale(p) =>
      if p in s.acquirers && s.acquirers[p].Purging? then
        var a := s.acquirers[p];
        Some(s.(slots := Purge(s.slots, s.now, a.at), acquirers := s.acquirers[p := Counting(a.task, a.at)]))
      else None
    case Count(p) =>
      if p in s.acquirers && s.acquirers[p].Counting? then
        var a := s.acquirers[p];
        if |Live(s.slots, s.now)| < limit then Some(s.(acquirers := s.acquirers[p := Adding(a.task, a.at)]))
        else Some(s.(acquirers := s.acquirers[p := Testing(a.task, a.at)]))
      else None
    case Test(p) =>
      if p in s.acquirers && s.acquirers[p].Testing? then
        var a := s.acquirers[p];
        if Scored(Live(s.slots, s.now), a.task) then Some(s.(acquirers := s.acquirers[p := Adding(a.task, a.at)]))
        else Some(s.(acquirers := s.acquirers - {p}))
      else None
    case AddSlot(p) =>
      if p in s.acquirers && s.acquirers[p].Adding? then
        var a := s.acquirers[p];
        Some(s.(slots := ZAdd(s.slots, s.now, a.at, a.task), acquirers := s.acquirers[p := Expiring(a.task, a.at)]))
      else None
    case SetExpiry(p) =>
      if p in s.acquirers && s.acquirers[p].Expiring? then
        Some(s.(slots := Expire(s.slots, s.now), acquirers := s.acquirers - {p}))
      else None
    case Release(task) => Some(s.(slots := Remove(s.slots, s.now, task)))
    case Crash(p) =>
      if p in s.acquirers then Some(s.(acquirers := s.acquirers - {p})) else None
  }

  ghost predicate IsRun(limit: int, steps: seq<Step>, states: seq<State>) {
    && |states| == |steps| + 1
    && states[0].slots == EMPTY && states[0].acquirers == map[]
    && forall i | 0 <= i < |steps| :: Next(limit, states[i], steps[i]) == Some(states[i + 1])
  }

  /** Acquirers that have passed their test and not yet added. */
  function Adders(s: State): set<nat> {
    set p | p in s.acquirers && s.acquirers[p].Adding?
  }

  function Pending(s: State): set<string> {
    set p | p in s.acquirers && s.acquirers[p].Adding? :: s.acquirers[p].task
  }

  /** Ids that are in the set or about to be. */
  function Claimed(s: State): set<string> {
    Live(s.slots, s.now).Keys + Pending(s)
  }

  lemma {:induction false} ImageSmaller(ps: set<nat>, f: map<nat, Phase>, tasks: set<string>)
    requires ps <= f.Keys && forall t | t in tasks :: exists p :: p in ps && f[p].task == t
    ensures |tasks| <= |ps|
  {
    if tasks != {} {
      var t :| t in tasks;
      var p :| p in ps && f[p].task == t;
      ImageSmaller(ps - {p}, f, tasks - {t});
    }
  }

  lemma PendingAtMostAdders(s: State)
    ensures |Pending(s)| <= |Adders(s)|
  {
    forall t | t in Pending(s) ensures exists p :: p in Adders(s) && s.acquirers[p].task == t {
      var p :| p in s.acquirers && s.acquirers[p].Adding? && s.acquirers[p].task == t;
      assert p in Adders(s);
    }
    ImageSmaller(Adders(s), s.acquirers, Pending(s));
  }

  lemma NoNewAdder(s: State, t: State)
    requires forall q | q in t.acquirers && t.acquirers[q].Adding? :: q in s.acquirers && s.acquirers[q] == t.acquirers[q]
    ensures Pending(t) <= Pending(s)
  {
  }

  lemma OneNewAdder(s: State, t: State, p: nat, a: Phase)
    requires a.Adding? && t.acquirers == s.acquirers[p := a]
    ensures Pending(t) <= Pending(s) + {a.task}
  {
  }

  lemma AdderIsPending(s: State, p: nat)
    requires p in s.acquirers && s.acquirers[p].Adding?
    ensures s.acquirers[p].task in Pending(s)
  {
  }

  /** A count that finds no room lets nobody through yet. */
  lemma FullCountClaimsNothing(limit: int, s: State, p: nat, t: State)
    requires Next(limit, s, Count(p)) == Some(t) && |Live(s.slots, s.now)| >= limit
    ensures Claimed(t) <= Claimed(s)
  {
    var a := s.acquirers[p];
    assert t.slots == s.slots && t.now == s.now && t.acquirers == s.acquirers[p := Testing(a.task, a.at)];
    NoNewAdder(s, t);
  }

  lemma TestClaimsOnlyMembers(limit: int, s: State, p: nat, t: State)
    requires Next(limit, s, Test(p)) == Some(t)
    ensures Claimed(t) <= Claimed(s)
  {
    var a := s.acquirers[p];
    if Scored(Live(s.slots, s.now), a.task) {
      OneNewAdder(s, t, p, Adding(a.task, a.at));
    } else {
      NoNewAdder(s, t);
    }
  }

  lemma AddClaimsOnlyPending(limit: int, s: State, p: nat, t: State)
    requires Next(limit, s, AddSlot(p)) == Some(t)
    ensures Claimed(t) <= Claimed(s)
  {
    AdderIsPending(s, p);
    NoNewAdder(s, t);
  }

  lemma OthersClaimNothing(limit: int, s: State, step: Step, t: State)
    requires Next(limit, s, step) == Some(t) && !step.Count? && !step.Test? && !step.AddSlot?
    ensures Claimed(t) <= Claimed(s)
  {
    NoNewAdder(s, t);
  }

  /** Every step but a count that finds room claims no id that was not claimed already. */
  lemma OnlyCountClaims(limit: int, s: State, step: Step, t: State)
    requires Next(limit, s, step) == Some(t)
    ensures Claimed(t) <= Claimed(s) || (step.Count? && |Live(t.slots, t.now)| < limit)
  {
    match step
    case Count(p) => if |Live(s.slots, s.now)| >= limit { FullCountClaimsNothing(limit, s, p, t); }
    case Test(p) => TestClaimsOnlyMembers(limit, s, p, t);
    case AddSlot(p) => AddClaimsOnlyPending(limit, s, p, t);
    case _ => OthersClaimNothing(limit, s, step, t);
  }

  /** Never more than `width` acquirers between their test and their add. */
  ghost predicate WithinWidth(width: nat, states: seq<State>) {
    forall n | 0 <= n < |states| :: |Adders(states[n])| <= width
  }

  /** The slot bound: with never more than `width` acquirers between their test and their
      add, members and pending ids together never exceed limit - 1 + width; with one at a
      time, the limit itself. */
  lemma {:induction false} SlotBound(limit: nat, width: nat, steps: seq<Step>, states: seq<State>, i: nat)
    requires limit >= 1 && width >= 1 && IsRun(limit, steps, states) && i < |states|
    requires WithinWidth(width, states)
    ensures |Claimed(states[i])| <= limit - 1 + width
    ensures |Live(states[i].slots, states[i].now)| <= limit - 1 + width
  {
    if i == 0 {
      assert Claimed(states[0]) == {};
    } else {
      SlotBound(limit, width, steps, states, i - 1);
      var s, t := states[i - 1], states[i];
      assert Next(limit, s, steps[i - 1]) == Some(t);
      OnlyCountClaims(limit, s, steps[i - 1], t);
      if Claimed(t) <= Claimed(s) {
        SubsetSmaller(Claimed(t), Claimed(s));
      } else {
        PendingAtMostAdders(t);
      }
    }
    SubsetSmaller(Live(states[i].slots, states[i].now).Keys, Claimed(states[i]));
  }

  // ---- Without interference --------------------------------------------------------------

  function After(limit: int, s: State, steps: seq<Step>): Option<State>
    decreases |steps|
  {
    if steps == [] then Some(s)
    else
      var t := Next(limit, s, steps[0]);
      if t.None? then None else After(limit, t.value, steps[1..])
  }

  /** The commands of one acquirer that nobody interferes with. */
  ghost function Alone(limit: int, s: State, p: nat, task: string): seq<Step> {
    var young := Young(s.slots, s.now);
    [Begin(p, task), PurgeStale(p), Count(p)]
    + (if |young| < limit then [AddSlot(p), SetExpiry(p)]
       else if task in young && young[task] != 0 then [Test(p), AddSlot(p), SetExpiry(p)]
       else [Test(p)])
  }

  lemma AfterStep(limit: int, s: State, step: Step, t: State, rest: seq<Step>)
    requires Next(limit, s, step) == Some(t)
    ensures After(limit, s, [step] + rest) == After(limit, t, rest)
  {
    assert ([step] + rest)[1..] == rest;
  }

  lemma AddedAlone(limit: int, s: State, p: nat, task: string, at: int)
    requires p in s.acquirers && s.acquirers[p] == Adding(task, at)
    ensures After(limit, s, [AddSlot(p), SetExpiry(p)])
         == Some(s.(slots := Add(s.slots, s.now, at, task), acquirers := s.acquirers - {p}))
  {
    var t := s.(slots := ZAdd(s.slots, s.now, at, task), acquirers := s.acquirers[p := Expiring(task, at)]);
    var u := t.(slots := Expire(t.slots, t.now), acquirers := t.acquirers - {p});
    AfterStep(limit, s, AddSlot(p), t, [SetExpiry(p)]);
    AfterStep(limit, t, SetExpiry(p), u, []);
    assert [AddSlot(p), SetExpiry(p)] == [AddSlot(p)] + [SetExpiry(p)];
    assert [SetExpiry(p)] == [SetExpiry(p)] + [];
    assert u.acquirers == s.acquirers - {p};
  }

  lemma CountedAlone(limit: int, s: State, p: nat, task: string)
    requires p in s.acquirers && s.acquirers[p] == Counting(task, s.now) && Purge(s.slots, s.now, s.now) == s.slots
    ensures After(limit, s, [Count(p)] + Alone(limit, s, p, task)[3..])
         == Some(s.(slots := Acquired(s.slots, s.now, limit, task), acquirers := s.acquirers - {p}))
  {
    AcquireMeans(s.slots, s.now, limit, task);
    var live := Live(s.slots, s.now);
    PurgeLeavesYoung(s.slots, s.now);
    var adding := s.(acquirers := s.acquirers[p := Adding(task, s.now)]);
    var testing := s.(acquirers := s.acquirers[p := Testing(task, s.now)]);
    assert adding.acquirers - {p} == s.acquirers - {p} == testing.acquirers - {p};
    AddedAlone(limit, adding, p, task, s.now);
    if |live| < limit {
      AfterStep(limit, s, Count(p), adding, [AddSlot(p), SetExpiry(p)]);
    } else if task in live && live[task] != 0 {
      assert testing.acquirers[p := Adding(task, s.now)] == adding.acquirers;
      AfterStep(limit, testing, Test(p), adding, [AddSlot(p), SetExpiry(p)]);
      assert [Test(p), AddSlot(p), SetExpiry(p)] == [Test(p)] + [AddSlot(p), SetExpiry(p)];
      AfterStep(limit, s, Count(p), testing, [Test(p), AddSlot(p), SetExpiry(p)]);
    } else {
      AfterStep(limit, testing, Test(p), s.(acquirers := testing.acquirers - {p}), []);
      assert [Test(p)] == [Test(p)] + [];
      AfterStep(limit, s, Count(p), testing, [Test(p)]);
    }
  }

  /** Command by command and without interference, an acquirer gets in or not, and leaves
      the set, exactly as the acquire in one piece. */
  lemma LoneAcquire(limit: int, s: State, p: nat, task: string)
    requires p !in s.acquirers
    ensures After(limit, s, Alone(limit, s, p, task)) == Some(s.(slots := Acquired(s.slots, s.now, limit, task)))
    ensures AddSlot(p) in Alone(limit, s, p, task) <==> Admitted(s.slots, s.now, limit, task)
  {
    var began := s.(acquirers := s.acquirers[p := Purging(task, s.now)]);
    var purged := s.(slots := Purge(s.slots, s.now, s.now), acquirers := s.acquirers[p := Counting(task, s.now)]);
    var rest := Alone(limit, s, p, task)[3..];
    PurgeTwice(s.slots, s.now);
    AcquireMeans(s.slots, s.now, limit, task);
    assert began.acquirers[p := Counting(task, s.now)] == purged.acquirers;
    assert Alone(limit, s, p, task) == [Begin(p, task)] + ([PurgeStale(p)] + ([Count(p)] + rest));
    AfterStep(limit, s, Begin(p, task), began, [PurgeStale(p)] + ([Count(p)] + rest));
    AfterStep(limit, began, PurgeStale(p), purged, [Count(p)] + rest);
    assert Alone(limit, purged, p, task)[3..] == rest;
    CountedAlone(limit, purged, p, task);
    assert purged.acquirers - {p} == s.acquirers;
  }

  lemma PurgeTwice(z: ZSet, now: int)
    ensures var y := Purge(z, now, now); Purge(y, now, now) == y && Young(y, now) == Young(z, now)
  {
    var y := Purge(z, now, now);
    assert Purge(y, now, now).members == y.members;
    assert Young(y, now) == Young(z, now);
  }

  // ---- The bound is met -----------------------------------------------------------------

  /** Some such run ends in s. */
  ghost predicate Reachable(limit: int, width: nat, s: State) {
    exists steps: seq<Step>, states: seq<State> :: IsRun(limit, steps, states) && WithinWidth(width, states) && states[|steps|] == s
  }

  lemma ReachOn(limit: int, width: nat, s: State, step: Step, t: State)
    requires Reachable(limit, width, s) && Next(limit, s, step) == Some(t) && |Adders(t)| <= width
    ensures Reachable(limit, width, t)
  {
    var steps, states :| IsRun(limit, steps, states) && WithinWidth(width, states) && states[|steps|] == s;
    var steps', states' := steps + [step], states + [t];
    forall i | 0 <= i < |steps'| ensures Next(limit, states'[i], steps'[i]) == Some(states'[i + 1]) {
      if i < |steps| { assert Next(limit, states[i], steps[i]) == Some(states[i + 1]); }
    }
    assert IsRun(limit, steps', states') && WithinWidth(width, states') && states'[|steps'|] == t;
  }

  /** Ids that differ. */
  function Name(i: nat): string {
    seq(i, _ => 'x')
  }

  function Names(n: nat): set<string> {
    set i | 0 <= i < n :: Name(i)
  }

  lemma NewName(n: nat)
    ensures Names(n + 1) == Names(n) + {Name(n)} && Name(n) !in Names(n)
  {
    forall i | 0 <= i < n ensures Name(i) != Name(n) { assert |Name(i)| != |Name(n)|; }
  }

  lemma {:induction false} NamesCount(n: nat)
    ensures |Names(n)| == n
  {
    if n > 0 {
      NamesCount(n - 1);
      NewName(n - 1);
    }
  }

  /** n ids in the set, all scored with the time at which this run stands still. */
  function Filled(n: nat): ZSet {
    if n == 0 then EMPTY else ZSet(map t | t in Names(n) :: 1, Some(1 + 2 * STALE_AGE))
  }

  /** The acquirers m to m + k - 1 past their test, and one more in `next`. */
  function Waiting(m: nat, k: nat): map<nat, Phase> {
    map p | m <= p < m + k :: Adding(Name(p), 1)
  }

  function Stage(m: nat, k: nat): State {
    State(1, Filled(m), Waiting(m, k))
  }

  lemma FilledCount(m: nat)
    ensures Live(Filled(m), 1).Keys == Names(m) && |Live(Filled(m), 1)| == m
  {
    NamesCount(m);
    assert Names(0) == {};
    assert Live(Filled(m), 1).Keys == Names(m);
    assert |Live(Filled(m), 1).Keys| == |Live(Filled(m), 1)|;
  }

  lemma PurgeKeepsFilled(m: nat)
    ensures Purge(Filled(m), 1, 1) == Filled(m)
  {
    assert Purge(Filled(m), 1, 1).members == Filled(m).members;
  }

  lemma {:induction false} WaitingCount(m: nat, k: nat)
    ensures |Waiting(m, k).Keys| == k
  {
    if k > 0 {
      WaitingCount(m, k - 1);
      WaitingGrows(m, k - 1);
    } else {
      assert Waiting(m, k) == map[];
    }
  }

  lemma WaitingGrows(m: nat, k: nat)
    ensures Waiting(m, k + 1) == Waiting(m, k)[m + k := Adding(Name(m + k), 1)]
    ensures m + k !in Waiting(m, k)
  {
  }

  lemma WaitingShrinks(m: nat, k: nat)
    requires k > 0
    ensures m in Waiting(m, k) && Waiting(m, k) - {m} == Waiting(m + 1, k - 1)
  {
  }

  /** One more acquirer beside those waiting. */
  function Joined(m: nat, k: nat, a: Phase): State {
    State(1, Filled(m), Waiting(m, k)[m + k := a])
  }

  lemma JoinedAdders(m: nat, k: nat, a: Phase)
    requires !a.Adding?
    ensures |Adders(Joined(m, k, a))| == k
  {
    WaitingCount(m, k);
    WaitingGrows(m, k);
    assert Adders(Joined(m, k, a)) == Waiting(m, k).Keys;
  }

  lemma StageAdders(m: nat, k: nat)
    ensures |Adders(Stage(m, k))| == k
  {
    WaitingCount(m, k);
    assert Adders(Stage(m, k)) == Waiting(m, k).Keys;
  }

  lemma JoinStep(limit: int, m: nat, k: nat)
    ensures Next(limit, Stage(m, k), Begin(m + k, Name(m + k))) == Some(Joined(m, k, Purging(Name(m + k), 1)))
  {
    WaitingGrows(m, k);
  }

  lemma PurgeStep(limit: int, m: nat, k: nat, id: string)
    ensures Next(limit, Joined(m, k, Purging(id, 1)), PurgeStale(m + k)) == Some(Joined(m, k, Counting(id, 1)))
  {
    PurgeKeepsFilled(m);
    var w: map<nat, Phase>, p: nat := Waiting(m, k), m + k;
    assert w[p := Purging(id, 1)][p := Counting(id, 1)] == w[p := Counting(id, 1)];
  }

  lemma CountStep(limit: int, m: nat, k: nat)
    requires m < limit
    ensures Next(limit, Joined(m, k, Counting(Name(m + k), 1)), Count(m + k)) == Some(Stage(m, k + 1))
  {
    FilledCount(m);
    WaitingGrows(m, k);
    var w: map<nat, Phase>, p: nat, id := Waiting(m, k), m + k, Name(m + k);
    assert w[p := Counting(id, 1)][p := Adding(id, 1)] == w[p := Adding(id, 1)];
  }

  /** While there is room, one more acquirer gets past its test. */
  lemma OneMoreWaits(limit: int, width: nat, m: nat, k: nat)
    requires Reachable(limit, width, Stage(m, k)) && m < limit && k < width
    ensures Reachable(limit, width, Stage(m, k + 1))
  {
    var p: nat, id := m + k, Name(m + k);
    JoinStep(limit, m, k);
    JoinedAdders(m, k, Purging(id, 1));
    ReachOn(limit, width, Stage(m, k), Begin(p, id), Joined(m, k, Purging(id, 1)));
    PurgeStep(limit, m, k, id);
    JoinedAdders(m, k, Counting(id, 1));
    ReachOn(limit, width, Joined(m, k, Purging(id, 1)), PurgeStale(p), Joined(m, k, Counting(id, 1)));
    CountStep(limit, m, k);
    StageAdders(m, k + 1);
    ReachOn(limit, width, Joined(m, k, Counting(id, 1)), Count(p), Stage(m, k + 1));
  }

  lemma AddFills(m: nat)
    ensures Expire(ZAdd(Filled(m), 1, 1, Name(m)), 1) == Filled(m + 1)
  {
    FilledCount(m);
    NewName(m);
    assert Live(Filled(m), 1)[Name(m) := 1] == Filled(m + 1).members;
  }

  /** The first of those waiting has sent its ZADD. */
  function Added(m: nat, k: nat): State {
    State(1, ZAdd(Filled(m), 1, 1, Name(m)), Waiting(m, k)[m := Expiring(Name(m), 1)])
  }

  lemma AddedAdders(m: nat, k: nat)
    requires k > 0
    ensures |Adders(Added(m, k))| == k - 1
  {
    WaitingCount(m + 1, k - 1);
    WaitingShrinks(m, k);
    assert Adders(Added(m, k)) == Waiting(m + 1, k - 1).Keys;
  }

  /** The first of those waiting adds itself. */
  lemma OneAdds(limit: int, width: nat, m: nat, k: nat)
    requires Reachable(limit, width, Stage(m, k)) && 0 < k <= width
    ensures Reachable(limit, width, Stage(m + 1, k - 1))
  {
    AddFills(m);
    WaitingShrinks(m, k);
    AddedAdders(m, k);
    StageAdders(m + 1, k - 1);
    assert Next(limit, Stage(m, k), AddSlot(m)) == Some(Added(m, k));
    ReachOn(limit, width, Stage(m, k), AddSlot(m), Added(m, k));
    assert Added(m, k).acquirers - {m} == Waiting(m, k) - {m};
    ReachOn(limit, width, Added(m, k), SetExpiry(m), Stage(m + 1, k - 1));
  }

  lemma Start(limit: int, width: nat)
    ensures Reachable(limit, width, Stage(0, 0))
  {
    var s := Stage(0, 0);
    assert s.acquirers == map[] && Adders(s) == {};
    assert IsRun(limit, [], [s]) && WithinWidth(width, [s]) && [s][0] == s;
  }

  lemma OneEnters(limit: int, width: nat, m: nat)
    requires Reachable(limit, width, Stage(m, 0)) && m < limit && width >= 1
    ensures Reachable(limit, width, Stage(m + 1, 0))
  {
    OneMoreWaits(limit, width, m, 0);
    OneAdds(limit, width, m, 1);
  }

  /** One after the other, up to one below the limit. */
  lemma {:induction false} FillUp(limit: int, width: nat, m: nat)
    requires m < limit && width >= 1
    ensures Reachable(limit, width, Stage(m, 0))
  {
    if m == 0 {
      Start(limit, width);
    } else {
      FillUp(limit, width, m - 1);
      OneEnters(limit, width, m - 1);
    }
  }

  lemma {:induction false} Crowd(limit: int, width: nat, m: nat, k: nat)
    requires m < limit && k <= width && width >= 1
    ensures Reachable(limit, width, Stage(m, k))
  {
    if k == 0 {
      FillUp(limit, width, m);
    } else {
      Crowd(limit, width, m, k - 1);
      OneMoreWaits(limit, width, m, k - 1);
    }
  }

  lemma {:induction false} CrowdEnters(limit: int, width: nat, m: nat, k: nat, j: nat)
    requires m < limit && j <= k <= width && width >= 1
    ensures Reachable(limit, width, Stage(m + j, k - j))
  {
    if j == 0 {
      Crowd(limit, width, m, k);
    } else {
      CrowdEnters(limit, width, m, k, j - 1);
      OneAdds(limit, width, m + j - 1, k - j + 1);
    }
  }

  /** The bound is met, for every limit and every width: some run in which never more than
      `width` acquirers stand between test and add puts limit - 1 + width ids in the set. */
  lemma OverlapExceedsLimit(limit: nat, width: nat) returns (steps: seq<Step>, states: seq<State>)
    requires limit >= 1 && width >= 1
    ensures IsRun(limit, steps, states) && WithinWidth(width, states)
    ensures var end := states[|steps|]; |Live(end.slots, end.now)| == limit - 1 + width
  {
    CrowdEnters(limit, width, limit - 1, width, width);
    var end := Stage(limit - 1 + width, 0);
    FilledCount(limit - 1 + width);
    steps, states :| IsRun(limit, steps, states) && WithinWidth(width, states) && states[|steps|] == end;
  }

  /** Every run within this width keeps the limit. */
  ghost predicate KeepsLimit(limit: nat, width: nat) {
    forall steps: seq<Step>, states: seq<State>, i | IsRun(limit, steps, states) && WithinWidth(width, states) && 0 <= i < |states| ::
      |Live(states[i].slots, states[i].now)| <= limit
  }

  /** So the gate keeps its limit exactly when acquirers do not overlap between test and
      add. */
  lemma LimitKeptExactlyWhen(limit: nat, width: nat)
    requires limit >= 1
    ensures KeepsLimit(limit, width) <==> width <= 1
  {
    if width <= 1 {
      forall steps: seq<Step>, states: seq<State>, i | IsRun(limit, steps, states) && WithinWidth(width, states) && 0 <= i < |states|
        ensures |Live(states[i].slots, states[i].now)| <= limit
      {
        SlotBound(limit, 1, steps, states, i);
      }
    } else {
      var steps, states := OverlapExceedsLimit(limit, width);
      assert |Live(states[|steps|].slots, states[|steps|].now)| > limit;
    }
  }

  // ---- Reclaiming ---------------------------------------------------------------------

  ghost predicate Aged(s: State) {
    && (forall t | t in s.slots.members :: s.slots.members[t] <= s.now)
    && (forall p | p in s.acquirers :: s.acquirers[p].at <= s.now)
  }

  lemma {:induction false} RunIsAged(limit: int, steps: seq<Step>, states: seq<State>, i: nat)
    requires IsRun(limit, steps, states) && i < |states|
    ensures Aged(states[i])
  {
    if i > 0 {
      RunIsAged(limit, steps, states, i - 1);
      assert Next(limit, states[i - 1], steps[i - 1]) == Some(states[i]);
    }
  }

  predicate Adds(s: State, step: Step, task: string) {
    step.AddSlot? && step.p in s.acquirers && s.acquirers[step.p].task == task
  }

  /** No add for this task is among the steps from i up to k. */
  ghost predicate NotAdded(steps: seq<Step>, states: seq<State>, i: nat, k: nat, task: string)
    requires k <= |steps| < |states|
  {
    forall n | i <= n < k :: !Adds(states[n], steps[n], task)
  }

  /** The key lives two stale ages past `since`, and the task's score is no later than that. */
  ghost predicate Refreshed(z: ZSet, since: int, task: string) {
    task in z.members ==>
      z.members[task] <= since && z.expiry.Some? && z.expiry.value >= since + 2 * STALE_AGE
  }

  lemma StepKeepsRefreshed(limit: int, s: State, step: Step, t: State, since: int, task: string)
    requires Next(limit, s, step) == Some(t) && Refreshed(s.slots, since, task) && since <= s.now
    requires !Adds(s, step, task)
    ensures Refreshed(t.slots, since, task) && since <= t.now
  {
  }

  lemma {:induction false} StaysRefreshed(limit: int, steps: seq<Step>, states: seq<State>, m: nat, i: nat, task: string)
    requires IsRun(limit, steps, states) && m < i < |states| && steps[m].SetExpiry?
    requires task in Live(states[m].slots, states[m].now) && NotAdded(steps, states, m, i, task)
    ensures Refreshed(states[i].slots, states[m].now, task) && states[m].now <= states[i].now
  {
    assert Next(limit, states[i - 1], steps[i - 1]) == Some(states[i]);
    if m < i - 1 {
      StaysRefreshed(limit, steps, states, m, i - 1, task);
      StepKeepsRefreshed(limit, states[i - 1], steps[i - 1], states[i], states[m].now, task);
    } else {
      RunIsAged(limit, steps, states, m);
    }
  }

  /** Once an EXPIRE, of whichever acquirer, has followed a slot's add, the expiry of the
      key frees it only when a purge at the same moment would. */
  lemma KeyExpiryFreesOnlyStale(limit: int, steps: seq<Step>, states: seq<State>, m: nat, i: nat, task: string)
    requires IsRun(limit, steps, states) && m < i < |states| && steps[m].SetExpiry?
    requires task in Live(states[m].slots, states[m].now) && NotAdded(steps, states, m, i, task)
    requires task in states[i].slots.members && task !in Live(states[i].slots, states[i].now)
    ensures states[i].slots.members[task] + STALE_AGE <= states[i].now
  {
    StaysRefreshed(limit, steps, states, m, i, task);
  }

  /** An acquirer by itself, up to its add. */
  lemma AddsAlone(limit: int, s: State, p: nat, task: string)
    requires Reachable(limit, 1, s) && s.acquirers == map[] && |Live(Purge(s.slots, s.now, s.now), s.now)| < limit
    ensures Reachable(limit, 1, State(s.now, ZAdd(Purge(s.slots, s.now, s.now), s.now, s.now, task),
                                      map[p := Expiring(task, s.now)]))
  {
    var z := Purge(s.slots, s.now, s.now);
    OneAlone(p, Purging(task, s.now), Counting(task, s.now));
    OneAlone(p, Counting(task, s.now), Adding(task, s.now));
    OneAlone(p, Adding(task, s.now), Expiring(task, s.now));
    AloneOn(limit, s, Begin(p, task), State(s.now, s.slots, map[p := Purging(task, s.now)]), p);
    AloneOn(limit, State(s.now, s.slots, map[p := Purging(task, s.now)]), PurgeStale(p),
            State(s.now, z, map[p := Counting(task, s.now)]), p);
    AloneOn(limit, State(s.now, z, map[p := Counting(task, s.now)]), Count(p),
            State(s.now, z, map[p := Adding(task, s.now)]), p);
    AloneOn(limit, State(s.now, z, map[p := Adding(task, s.now)]), AddSlot(p),
            State(s.now, ZAdd(z, s.now, s.now, task), map[p := Expiring(task, s.now)]), p);
  }

  lemma OneAlone(p: nat, a: Phase, b: Phase)
    ensures map[p := a][p := b] == map[p := b]
  {
  }

  lemma AloneOn(limit: int, s: State, step: Step, t: State, p: nat)
    requires Reachable(limit, 1, s) && Next(limit, s, step) == Some(t) && t.acquirers.Keys <= {p}
    ensures Reachable(limit, 1, t)
  {
    SubsetSmaller(Adders(t), {p});
    ReachOn(limit, 1, s, step, t);
  }

  /** Without it a young slot can go: a second acquirer crashed before its EXPIRE and left
      the key its old expiry, which ends between a third one's ZADD and EXPIRE. */
  lemma MissingExpireFreesYoung(limit: int) returns (s: State, t: State)
    requires limit >= 2
    ensures Reachable(limit, 1, s) && Next(limit, s, Tick(2)) == Some(t)
    ensures "c" in Live(s.slots, s.now) && "c" in t.slots.members && "c" !in Live(t.slots, t.now)
    ensures t.slots.members["c"] + STALE_AGE > t.now
  {
    var ttl := Some(1 + 2 * STALE_AGE);
    Start(limit, 1);
    assert Stage(0, 0) == State(1, EMPTY, map[]);
    AddsAlone(limit, State(1, EMPTY, map[]), 0, "a");
    var one := State(1, ZSet(map["a" := 1], None), map[0 := Expiring("a", 1)]);
    assert ZAdd(Purge(EMPTY, 1, 1), 1, 1, "a") == one.slots;
    AloneOn(limit, one, SetExpiry(0), State(1, ZSet(map["a" := 1], ttl), map[]), 0);
    AloneOn(limit, State(1, ZSet(map["a" := 1], ttl), map[]), Tick(STALE_AGE - 1),
            State(STALE_AGE, ZSet(map["a" := 1], ttl), map[]), 0);
    SecondCrashes(limit, ttl);
    s := State(2 * STALE_AGE - 1, ZSet(map["b" := STALE_AGE, "c" := 2 * STALE_AGE - 1], ttl),
               map[2 := Expiring("c", 2 * STALE_AGE - 1)]);
    t := s.(now := 2 * STALE_AGE + 1);
  }

  lemma SecondCrashes(limit: int, ttl: Option<int>)
    requires limit >= 2 && ttl == Some(1 + 2 * STALE_AGE)
    requires Reachable(limit, 1, State(STALE_AGE, ZSet(map["a" := 1], ttl), map[]))
    ensures Reachable(limit, 1, State(2 * STALE_AGE - 1, ZSet(map["b" := STALE_AGE, "c" := 2 * STALE_AGE - 1], ttl),
                                      map[2 := Expiring("c", 2 * STALE_AGE - 1)]))
  {
    var s := State(STALE_AGE, ZSet(map["a" := 1], ttl), map[]);
    assert Purge(s.slots, s.now, s.now) == s.slots;
    assert |map["a" := 1]| == 1;
    AddsAlone(limit, s, 1, "b");
    var z := ZSet(map["a" := 1, "b" := STALE_AGE], ttl);
    assert ZAdd(s.slots, s.now, s.now, "b") == z;
    AloneOn(limit, State(STALE_AGE, z, map[1 := Expiring("b", STALE_AGE)]), Crash(1), State(STALE_AGE, z, map[]), 1);
    var u := State(2 * STALE_AGE - 1, z, map[]);
    AloneOn(limit, State(STALE_AGE, z, map[]), Tick(STALE_AGE - 1), u, 1);
    assert Purge(z, u.now, u.now) == ZSet(map["b" := STALE_AGE], ttl);
    assert |map["b" := STALE_AGE]| == 1;
    AddsAlone(limit, u, 2, "c");
    assert ZAdd(ZSet(map["b" := STALE_AGE], ttl), u.now, u.now, "c")
        == ZSet(map["b" := STALE_AGE, "c" := 2 * STALE_AGE - 1], ttl);
  }

  /** A slot nobody releases is gone once an acquirer that began at or after its score
      plus the stale age has purged. */
  lemma PurgeReclaims(limit: int, s: State, p: nat, t: State, task: string)
    requires Next(limit, s, PurgeStale(p)) == Some(t)
    requires task in Live(s.slots, s.now)
    ensures task in Live(t.slots, t.now) <==> s.acquirers[p].at < Live(s.slots, s.now)[task] + STALE_AGE
  {
  }

  /** Only its own add puts a task into the set. */
  lemma OnlyAddsAdd(limit: int, s: State, step: Step, t: State, task: string)
    requires Next(limit, s, step) == Some(t) && task !in Live(s.slots, s.now) && !Adds(s, step, task)
    ensures task !in Live(t.slots, t.now)
  {
  }

  lemma {:induction false} StaysGone(limit: int, steps: seq<Step>, states: seq<State>, i: nat, k: nat, task: string)
    requires IsRun(limit, steps, states) && i <= k < |states|
    requires task !in Live(states[i].slots, states[i].now) && NotAdded(steps, states, i, k, task)
    ensures task !in Live(states[k].slots, states[k].now)
  {
    if k > i {
      StaysGone(limit, steps, states, i, k - 1, task);
      OnlyAddsAdd(limit, states[k - 1], steps[k - 1], states[k], task);
    }
  }

  /** A slot that is never released is reclaimed in every run: once an acquirer that began
      at or after its score plus the stale age has purged, the task is in the set at no
      later state, until it is added anew. A younger one is there right after the purge. */
  lemma StaleSlotReclaimed(limit: int, steps: seq<Step>, states: seq<State>, i: nat, k: nat, task: string)
    requires IsRun(limit, steps, states) && i < k < |states| && steps[i].PurgeStale?
    requires task in Live(states[i].slots, states[i].now) && NotAdded(steps, states, i, k, task)
    ensures var p := steps[i].p;
            && p in states[i].acquirers
            && (states[i].acquirers[p].at >= Live(states[i].slots, states[i].now)[task] + STALE_AGE ==>
                  task !in Live(states[k].slots, states[k].now))
            && (states[i].acquirers[p].at < Live(states[i].slots, states[i].now)[task] + STALE_AGE ==>
                  task in Live(states[i + 1].slots, states[i + 1].now))
  {
    assert Next(limit, states[i], steps[i]) == Some(states[i + 1]);
    PurgeReclaims(limit, states[i], steps[i].p, states[i + 1], task);
    if task !in Live(states[i + 1].slots, states[i + 1].now) {
      StaysGone(limit, steps, states, i + 1, k, task);
    }
  }

  // ---- What an acquirer can do ---------------------------------------------------------

  /** Each acquirer sends its commands in order, and nothing stands in the way of the next
      one, of a release, a crash or the clock. */
  lemma EnabledExactlyWhen(limit: int, s: State, step: Step)
    ensures Next(limit, s, step).Some? <==>
            match step
            case Tick(_) => true
            case Begin(p, _) => p !in s.acquirers
            case PurgeStale(p) => p in s.acquirers && s.acquirers[p].Purging?
            case Count(p) => p in s.acquirers && s.acquirers[p].Counting?
            case Test(p) => p in s.acquirers && s.acquirers[p].Testing?
            case AddSlot(p) => p in s.acquirers && s.acquirers[p].Adding?
            case SetExpiry(p) => p in s.acquirers && s.acquirers[p].Expiring?
            case Release(_) => true
            case Crash(p) => p in s.acquirers
    ensures step.Tick? ==> Next(limit, s, step) == Some(s.(now := s.now + step.elapsed))
  {
  }
}
