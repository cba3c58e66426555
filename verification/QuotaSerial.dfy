/** Concurrent quota transactions on one User node. Each increment or token addition runs
    its Cypher clause by clause; its first SET takes the node's write lock, which is kept
    until commit or rollback. Clauses of different transactions interleave wherever the
    lock lets them. Reads and admin resets are one step each. */
module QuotaSerial {
  import opened Wrappers
  import opened UsageLedger

  type TxId = nat

  /** The clause a transaction is at, and the values its WITH clauses have bound. */
  datatype Regs = Regs(pc: nat, monthDue: bool, weekDue: bool, current: int)

  /** `saved` is the node as the lock holder found it; `order` and `accepted` are history. */
  datatype State = State(
    user: User,
    holder: Option<TxId>,
    saved: User,
    regs: map<TxId, Regs>,
    order: seq<TxId>,
    accepted: map<TxId, bool>)

  datatype Step = Lock(t: TxId) | Clause(t: TxId) | Commit(t: TxId) | Rollback(t: TxId) | AtOnce(t: TxId)

  predicate Stepwise(op: Op) {
    Runs(op) && !op.GetUsage? && !op.AdminReset?
  }

  /** The number of clauses after the locking SET. */
  function Clauses(op: Op): nat {
    match op
    case TryIncrement(_) => 4
    case AddLite(_) => 5
    case _ => 3
  }

  /** One clause. WITH binds, FOREACH and SET write. */
  function RunClause(e: Event, r: Regs, u: User): (Regs, User) {
    var next := r.(pc := r.pc + 1);
    if r.pc == 0 then (next.(monthDue := Due(u.resetAt, e.now)), u)
    else if r.pc == 1 then (next, if r.monthDue then ResetMonth(u, e.nextMonth) else u)
    else
      match e.op
      case TryIncrement(limit) =>
        if r.pc == 2 then (next.(current := Coalesce(u.meetings)), u)
        else (next, if r.current < limit then u.(meetings := Some(r.current + 1)) else u)
      case AddLite(delta) =>
        if r.pc == 2 then (next.(weekDue := Due(u.weeklyResetAt, e.now)), u)
        else if r.pc == 3 then (next, if r.weekDue then ResetWeek(u, e.now) else u)
        else (next, u.(lite := Some(Coalesce(u.lite) + delta), liteWeekly := Some(Coalesce(u.liteWeekly) + delta)))
      case AddTokens(delta) => (next, u.(tokens := Some(Coalesce(u.tokens) + delta)))
      case AddChars(delta) => (next, u.(chars := Some(Coalesce(u.chars) + delta)))
      case _ => (next, u)
  }

  function Next(ev: TxId -> Event, s: State, step: Step): Option<State> {
    var t := step.t;
    var e := ev(t);
    match step
    case Lock(_) =>
      if Stepwise(e.op) && s.holder.None? && t !in s.order then
        Some(s.(user := Touch(s.user, e.now), holder := Some(t), saved := s.user,
                regs := s.regs[t := Regs(0, false, false, 0)], order := s.order + [t]))
      else None
    case Clause(_) =>
      if s.holder == Some(t) && t in s.regs && s.regs[t].pc < Clauses(e.op) then
        var (r, u) := RunClause(e, s.regs[t], s.user);
        Some(s.(user := u, regs := s.regs[t := r]))
      else None
    case Commit(_) =>
      if s.holder == Some(t) && t in s.regs && s.regs[t].pc >= Clauses(e.op) then
        Some(s.(holder := None,
                accepted := if e.op.TryIncrement? then s.accepted[t := s.regs[t].current < e.op.limit] else s.accepted))
      else None
    case Rollback(_) =>
      if s.holder == Some(t) && s.order != [] then
        Some(s.(user := s.saved, holder := None, order := s.order[..|s.order| - 1]))
      else None
    case AtOnce(_) =>
      if !Stepwise(e.op) && s.holder.None? && t !in s.order then
        Some(s.(user := Apply(s.user, e), order := s.order + [t]))
      else None
  }

  ghost predicate IsRun(ev: TxId -> Event, u: User, steps: seq<Step>, states: seq<State>) {
    && |states| == |steps| + 1
    && states[0] == State(u, None, u, map[], [], map[])
    && forall i | 0 <= i < |steps| :: Next(ev, states[i], steps[i]) == Some(states[i + 1])
  }

  ghost function Serial(ev: TxId -> Event, order: seq<TxId>): seq<Event> {
    seq(|order|, i requires 0 <= i < |order| => ev(order[i]))
  }

  /** The clauses a transaction still has to run, run without interruption. */
  ghost function FinishRegs(e: Event, r: Regs, u: User): (Regs, User)
    decreases Clauses(e.op) - r.pc
  {
    if r.pc >= Clauses(e.op) then (r, u)
    else var (r', u') := RunClause(e, r, u); FinishRegs(e, r', u')
  }

  /** Run without interruption, the clauses amount to the program as a whole, and the
      count they bind is the healed one. */
  lemma ClausesAreProgram(e: Event, u: User)
    requires Stepwise(e.op)
    ensures var (r, v) := FinishRegs(e, Regs(0, false, false, 0), Touch(u, e.now));
            && v == Apply(u, e)
            && (e.op.TryIncrement? ==> r.current == Coalesce(HealMonth(u, e.now, e.nextMonth).meetings))
  {
    var r0, u0 := Regs(0, false, false, 0), Touch(u, e.now);
    var (r1, u1) := RunClause(e, r0, u0);
    var (r2, u2) := RunClause(e, r1, u1);
    var (r3, u3) := RunClause(e, r2, u2);
    assert FinishRegs(e, r0, u0) == FinishRegs(e, r1, u1) == FinishRegs(e, r2, u2) == FinishRegs(e, r3, u3);
    if e.op.TryIncrement? {
      var (r4, u4) := RunClause(e, r3, u3);
      assert FinishRegs(e, r3, u3) == FinishRegs(e, r4, u4) == (r4, u4);
    } else if e.op.AddLite? {
      var (r4, u4) := RunClause(e, r3, u3);
      var (r5, u5) := RunClause(e, r4, u4);
      assert FinishRegs(e, r3, u3) == FinishRegs(e, r4, u4) == FinishRegs(e, r5, u5) == (r5, u5);
    }
  }

  ghost predicate Distinct(order: seq<TxId>) {
    forall a, b | 0 <= a < b < |order| :: order[a] != order[b]
  }

  /** The decisions recorded so far are those of the serial run, and every increment but
      the lock holder's has one. */
  ghost predicate Decided(ev: TxId -> Event, u: User, order: seq<TxId>, accepted: map<TxId, bool>, holder: Option<TxId>) {
    && (forall t | t in accepted :: t in order)
    && (forall i | 0 <= i < |order| && order[i] in accepted ::
          accepted[order[i]] == Accepted(u, Serial(ev, order), i))
    && (forall i | 0 <= i < |order| && ev(order[i]).op.TryIncrement? && Some(order[i]) != holder :: order[i] in accepted)
  }

  /** Whoever holds the lock is last in the order, found the state of everyone before it,
      and is on its way to that state with its own program applied. */
  ghost predicate Inv(ev: TxId -> Event, u: User, s: State) {
    && Distinct(s.order)
    && (s.holder.None? ==> s.user == Run(u, Serial(ev, s.order)))
    && (s.holder.Some? ==>
          var t, n := s.holder.value, |s.order| - 1;
          && n >= 0 && s.order[n] == t && t in s.regs && Stepwise(ev(t).op) && t !in s.accepted
          && s.saved == Run(u, Serial(ev, s.order[..n]))
          && FinishRegs(ev(t), s.regs[t], s.user)
             == FinishRegs(ev(t), Regs(0, false, false, 0), Touch(s.saved, ev(t).now)))
    && Decided(ev, u, s.order, s.accepted, s.holder)
  }

  lemma SerialPrefix(ev: TxId -> Event, u: User, order: seq<TxId>, n: nat)
    requires n <= |order|
    ensures Serial(ev, order[..n]) == Serial(ev, order)[..n]
    ensures forall i | 0 <= i < n :: Accepted(u, Serial(ev, order[..n]), i) == Accepted(u, Serial(ev, order), i)
  {
    assert Serial(ev, order[..n]) == Serial(ev, order)[..n];
    forall i | 0 <= i < n ensures Accepted(u, Serial(ev, order[..n]), i) == Accepted(u, Serial(ev, order), i) {
      SamePast(u, Serial(ev, order), Meetings, n, i);
    }
  }

  lemma SerialSnoc(ev: TxId -> Event, u: User, order: seq<TxId>, t: TxId)
    ensures (order + [t])[..|order|] == order
    ensures Run(u, Serial(ev, order + [t])) == Apply(Run(u, Serial(ev, order)), ev(t))
    ensures forall i | 0 <= i < |order| :: Accepted(u, Serial(ev, order), i) == Accepted(u, Serial(ev, order + [t]), i)
  {
    var longer := order + [t];
    SerialPrefix(ev, u, longer, |order|);
    assert longer[..|order|] == order;
  }

  lemma DecidedSnoc(ev: TxId -> Event, u: User, order: seq<TxId>, accepted: map<TxId, bool>, t: TxId, holder: Option<TxId>)
    requires Decided(ev, u, order, accepted, None) && t !in order
    requires holder == Some(t) || (holder == None && !ev(t).op.TryIncrement?)
    ensures Decided(ev, u, order + [t], accepted, holder)
  {
    SerialSnoc(ev, u, order, t);
    var longer := order + [t];
    forall i | 0 <= i < |longer| && longer[i] in accepted
      ensures accepted[longer[i]] == Accepted(u, Serial(ev, longer), i)
    {
      assert i < |order| ==> longer[i] == order[i];
    }
  }

  lemma DecidedInit(ev: TxId -> Event, u: User, order: seq<TxId>, accepted: map<TxId, bool>, t: TxId)
    requires order != [] && order[|order| - 1] == t && Distinct(order) && t !in accepted
    requires Decided(ev, u, order, accepted, Some(t))
    ensures Decided(ev, u, order[..|order| - 1], accepted, None)
  {
    var n := |order| - 1;
    SerialPrefix(ev, u, order, n);
    forall x | x in accepted ensures x in order[..n] {
      var i :| 0 <= i < |order| && order[i] == x;
      assert order[..n][i] == x;
    }
  }

  lemma DistinctSnoc(order: seq<TxId>, t: TxId)
    requires Distinct(order) && t !in order
    ensures Distinct(order + [t])
  {
  }

  lemma DistinctInit(order: seq<TxId>)
    requires Distinct(order) && order != []
    ensures Distinct(order[..|order| - 1])
  {
  }

  lemma LockKeepsInv(ev: TxId -> Event, u: User, s: State, t: TxId, s': State)
    requires Inv(ev, u, s) && Next(ev, s, Lock(t)) == Some(s')
    ensures Inv(ev, u, s')
  {
    DistinctSnoc(s.order, t);
    DecidedSnoc(ev, u, s.order, s.accepted, t, Some(t));
    assert s'.order[..|s.order|] == s.order;
  }

  lemma ClauseKeepsInv(ev: TxId -> Event, u: User, s: State, t: TxId, s': State)
    requires Inv(ev, u, s) && Next(ev, s, Clause(t)) == Some(s')
    ensures Inv(ev, u, s')
  {
  }

  lemma ProgramDone(e: Event, r: Regs, u: User, saved: User)
    requires Stepwise(e.op) && r.pc >= Clauses(e.op)
    requires FinishRegs(e, r, u) == FinishRegs(e, Regs(0, false, false, 0), Touch(saved, e.now))
    ensures u == Apply(saved, e)
    ensures e.op.TryIncrement? ==> r.current == Coalesce(HealMonth(saved, e.now, e.nextMonth).meetings)
  {
    ClausesAreProgram(e, saved);
  }

  lemma SerialLast(ev: TxId -> Event, u: User, order: seq<TxId>)
    requires order != []
    ensures var n := |order| - 1;
            && Run(u, Serial(ev, order)) == Apply(Run(u, Serial(ev, order[..n])), ev(order[n]))
            && (ev(order[n]).op.TryIncrement? ==>
                  (Accepted(u, Serial(ev, order), n) <==>
                   Accepts(HealMonth(Run(u, Serial(ev, order[..n])), ev(order[n]).now, ev(order[n]).nextMonth),
                           ev(order[n]).op.limit)))
  {
    SerialPrefix(ev, u, order, |order| - 1);
  }

  /** At commit the node is where the serial run ends, and an increment has decided as it
      would have there. */
  lemma CommitReaches(ev: TxId -> Event, u: User, s: State, t: TxId, s': State)
    requires Inv(ev, u, s) && Next(ev, s, Commit(t)) == Some(s')
    ensures s.order != [] && s.order[|s.order| - 1] == t
    ensures s.user == Run(u, Serial(ev, s.order))
    ensures ev(t).op.TryIncrement? ==>
              (s.regs[t].current < ev(t).op.limit <==> Accepted(u, Serial(ev, s.order), |s.order| - 1))
  {
    ProgramDone(ev(t), s.regs[t], s.user, s.saved);
    SerialLast(ev, u, s.order);
  }

  lemma CommitKeepsInv(ev: TxId -> Event, u: User, s: State, t: TxId, s': State)
    requires Inv(ev, u, s) && Next(ev, s, Commit(t)) == Some(s')
    ensures Inv(ev, u, s')
  {
    CommitReaches(ev, u, s, t, s');
  }

  lemma RollbackKeepsInv(ev: TxId -> Event, u: User, s: State, t: TxId, s': State)
    requires Inv(ev, u, s) && Next(ev, s, Rollback(t)) == Some(s')
    ensures Inv(ev, u, s')
  {
    var n := |s.order| - 1;
    DistinctInit(s.order);
    DecidedInit(ev, u, s.order, s.accepted, t);
    assert s' == s.(user := s.saved, holder := None, order := s.order[..n]);
  }

  lemma AtOnceStep(ev: TxId -> Event, s: State, t: TxId, s': State)
    requires Next(ev, s, AtOnce(t)) == Some(s')
    ensures s.holder.None? && t !in s.order && !ev(t).op.TryIncrement?
    ensures s' == s.(user := Apply(s.user, ev(t)), order := s.order + [t])
  {
  }

  lemma AtOnceKeepsInv(ev: TxId -> Event, u: User, s: State, t: TxId, s': State)
    requires Inv(ev, u, s) && Next(ev, s, AtOnce(t)) == Some(s')
    ensures Inv(ev, u, s')
  {
    AtOnceStep(ev, s, t, s');
    DistinctSnoc(s.order, t);
    SerialSnoc(ev, u, s.order, t);
    DecidedSnoc(ev, u, s.order, s.accepted, t, None);
  }

  lemma {:induction false} RunKeepsInv(ev: TxId -> Event, u: User, steps: seq<Step>, states: seq<State>, i: nat)
    requires IsRun(ev, u, steps, states) && i < |states|
    ensures Inv(ev, u, states[i])
  {
    if i > 0 {
      RunKeepsInv(ev, u, steps, states, i - 1);
      var s, t := states[i - 1], states[i];
      assert Next(ev, s, steps[i - 1]) == Some(t);
      match steps[i - 1]
      case Lock(x) => LockKeepsInv(ev, u, s, x, t);
      case Clause(x) => ClauseKeepsInv(ev, u, s, x, t);
      case Commit(x) => CommitKeepsInv(ev, u, s, x, t);
      case Rollback(x) => RollbackKeepsInv(ev, u, s, x, t);
      case AtOnce(x) => AtOnceKeepsInv(ev, u, s, x, t);
    }
  }

  /** Serialisability: in every interleaving, whenever the node is unlocked it is as if the
      transactions committed so far had run one after the other in the order in which they
      got the lock, and each increment was let through exactly as it would have been then. */
  lemma Serialisable(ev: TxId -> Event, u: User, steps: seq<Step>, states: seq<State>, i: nat)
    requires IsRun(ev, u, steps, states) && i < |states| && states[i].holder.None?
    ensures states[i].user == Run(u, Serial(ev, states[i].order)) && Distinct(states[i].order)
    ensures forall n | 0 <= n < |states[i].order| && ev(states[i].order[n]).op.TryIncrement? ::
              && states[i].order[n] in states[i].accepted
              && states[i].accepted[states[i].order[n]] == Accepted(u, Serial(ev, states[i].order), n)
  {
    RunKeepsInv(ev, u, steps, states, i);
  }

  /** Hence concurrent increments cannot pass the limit together: those let through in lock
      order up to the n-th are within the limit the n-th was checked against, in the cycle
      the run began in as in every later one. */
  lemma ConcurrentIncrementsWithinLimit(ev: TxId -> Event, u: User, steps: seq<Step>, states: seq<State>,
                                        i: nat, n: nat)
    requires IsRun(ev, u, steps, states) && i < |states| && states[i].holder.None?
    requires n < |states[i].order| && ev(states[i].order[n]).op.TryIncrement?
    requires states[i].order[n] in states[i].accepted && states[i].accepted[states[i].order[n]]
    ensures WithinLimit(u, Serial(ev, states[i].order), n + 1, ev(states[i].order[n]).op.limit)
  {
    RunKeepsInv(ev, u, steps, states, i);
    AcceptedWithinLimit(u, Serial(ev, states[i].order), n);
  }

  /** The race on a fresh account: two increments of a user with no month end in the run
      are let through together only if the limit has room for both on top of the count
      the node began with. */
  lemma TwoIncrementsInFirstCycle(ev: TxId -> Event, u: User, steps: seq<Step>, states: seq<State>,
                                  i: nat, m: nat, n: nat)
    requires IsRun(ev, u, steps, states) && i < |states| && states[i].holder.None?
    requires m < n < |states[i].order| && NeverZeroed(u, Serial(ev, states[i].order), Meetings, n + 1)
    requires forall x | x in {m, n} ::
               && ev(states[i].order[x]).op.TryIncrement?
               && states[i].order[x] in states[i].accepted && states[i].accepted[states[i].order[x]]
    ensures Value(u, Meetings) + 2 <= ev(states[i].order[n]).op.limit
  {
    ConcurrentIncrementsWithinLimit(ev, u, steps, states, i, n);
    RunKeepsInv(ev, u, steps, states, i);
    var es := Serial(ev, states[i].order);
    assert m in {m, n} && n in {m, n};
    assert Accepted(u, es, m) && Accepted(u, es, n);
    AcceptedBothCount(u, es, m, n);
  }

  lemma AcceptedBothCount(u: User, es: seq<Event>, m: nat, n: nat)
    requires m < n < |es| && Accepted(u, es, m) && Accepted(u, es, n)
    ensures SumAdded(u, es, Meetings, 0, n + 1) >= 2
  {
    SumAtLeast(u, es, m);
    SumGrows(u, es, m + 1, n);
  }

  lemma SumAtLeast(u: User, es: seq<Event>, m: nat)
    requires m < |es| && Accepted(u, es, m)
    ensures SumAdded(u, es, Meetings, 0, m + 1) >= 1
  {
    SumGrows(u, es, 0, m);
  }

  lemma {:induction false} SumGrows(u: User, es: seq<Event>, k: nat, n: nat)
    requires k <= n <= |es|
    ensures SumAdded(u, es, Meetings, 0, n) >= SumAdded(u, es, Meetings, 0, k)
  {
    if k < n { SumGrows(u, es, k, n - 1); }
  }

  /** A transaction takes the lock when nobody holds it, runs its clauses, and commits after
      the last one; its lock holder may roll back at any point. */
  lemma EnabledExactlyWhen(ev: TxId -> Event, s: State, step: Step)
    ensures Next(ev, s, step).Some? <==>
            var op := ev(step.t).op;
            var stepwise := op.TryIncrement? || ((op.AddTokens? || op.AddLite? || op.AddChars?) && op.delta > 0);
            var clauses := if op.TryIncrement? then 4 else if op.AddLite? then 5 else 3;
            match step
            case Lock(t) => stepwise && s.holder.None? && t !in s.order
            case Clause(t) => s.holder == Some(t) && t in s.regs && s.regs[t].pc < clauses
            case Commit(t) => s.holder == Some(t) && t in s.regs && s.regs[t].pc >= clauses
            case Rollback(t) => s.holder == Some(t) && s.order != []
            case AtOnce(t) => !stepwise && s.holder.None? && t !in s.order
  {
  }

  /** n clauses of t in a row. */
  function RunClauses(ev: TxId -> Event, s: State, t: TxId, n: nat): Option<State> {
    if n == 0 then Some(s)
    else
      var before := RunClauses(ev, s, t, n - 1);
      if before.None? then None else Next(ev, before.value, Clause(t))
  }

  /** t holds the lock, is at clause n, and is on its way to where it was going from s. */
  ghost predicate OnTheWay(ev: TxId -> Event, s: State, u: State, t: TxId, n: nat) {
    && t in s.regs && t in u.regs && u.holder == Some(t) && u.regs[t].pc == n && u.order == s.order && u.accepted == s.accepted
    && FinishRegs(ev(t), u.regs[t], u.user) == FinishRegs(ev(t), s.regs[t], s.user)
  }

  lemma OneClauseOn(ev: TxId -> Event, s: State, u: State, t: TxId, n: nat) returns (v: State)
    requires OnTheWay(ev, s, u, t, n) && n < Clauses(ev(t).op)
    ensures Next(ev, u, Clause(t)) == Some(v) && OnTheWay(ev, s, v, t, n + 1)
  {
    v := Next(ev, u, Clause(t)).value;
  }

  lemma {:induction false} ClausesRun(ev: TxId -> Event, s: State, t: TxId, n: nat) returns (u: State)
    requires OnTheWay(ev, s, s, t, 0) && n <= Clauses(ev(t).op)
    ensures RunClauses(ev, s, t, n) == Some(u) && OnTheWay(ev, s, u, t, n)
  {
    if n == 0 {
      u := s;
    } else {
      var before := ClausesRun(ev, s, t, n - 1);
      u := OneClauseOn(ev, s, before, t, n - 1);
    }
  }

  /** A transaction by itself takes the lock, runs its clauses and commits, and the node is
      then what its program makes of it; an increment is let through exactly when the healed
      count is below its limit. */
  lemma LoneTransaction(ev: TxId -> Event, s: State, t: TxId) returns (locked: State, ran: State, done: State)
    requires Stepwise(ev(t).op) && s.holder.None? && t !in s.order
    ensures Next(ev, s, Lock(t)) == Some(locked) && RunClauses(ev, locked, t, Clauses(ev(t).op)) == Some(ran)
    ensures Next(ev, ran, Commit(t)) == Some(done)
    ensures done.user == Apply(s.user, ev(t)) && done.holder == None && done.order == s.order + [t]
    ensures ev(t).op.TryIncrement? ==>
              done.accepted == s.accepted[t := Accepts(HealMonth(s.user, ev(t).now, ev(t).nextMonth), ev(t).op.limit)]
  {
    locked := Next(ev, s, Lock(t)).value;
    ran := ClausesRun(ev, locked, t, Clauses(ev(t).op));
    ClausesAreProgram(ev(t), s.user);
    HealIgnoresTouch(s.user, ev(t));
    done := Next(ev, ran, Commit(t)).value;
  }

  lemma HealIgnoresTouch(u: User, e: Event)
    ensures HealMonth(Touch(u, e.now), e.now, e.nextMonth).meetings == HealMonth(u, e.now, e.nextMonth).meetings
  {
  }
}
