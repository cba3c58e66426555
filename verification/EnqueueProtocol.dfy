/** Concurrent calls of `_enqueue`: each goes through the account gate and the project
    gate, command by command, and gives its slot back when the project is busy. Commands
    of different calls, job ends, crashes and the clock interleave freely, and each gate
    behaves as GateProtocol says. */
module EnqueueProtocol {
  import opened Wrappers
  import opened InflightGate
  import G = GateProtocol

  /** A gate of one account or project: its ZSET and the calls inside it. */
  datatype Gate = Gate(slots: ZSet, acquirers: map<nat, G.Phase>)

  const FRESH := Gate(EMPTY, map[])

  datatype Point =
    | Start
    | SlotGate
    | Between
    | MarkGate
    | GivingBack              // release_slot before the 409
    | HandingOver
    | Over(verdict: Verdict)
    | Crashed

  datatype Call = Call(function_: string, task: string, email: string, project: string, at: Point)

  datatype State = State(now: int, accounts: map<string, Gate>, projects: map<string, Gate>, calls: map<nat, Call>)

  datatype Step =
    | Tick(elapsed: nat)
    | Begin(p: nat, function_: string, task: string, email: string, project: string)
    | Advance(p: nat)                            // the call's next command
    | HandOver(p: nat, ok: bool)
    | FreeSlot(email: string, task: string)      // a job ends
    | FreeMark(project: string, task: string)
    | Crash(p: nat)

  predicate TakesSlot(c: Call) {
    c.function_ in HEAVY_JOBS && c.email != ""
  }

  predicate TakesMark(c: Call) {
    c.function_ in MASTER_WRITE_JOBS && c.email != "" && c.project != ""
  }

  predicate InFlight(c: Call) {
    !c.at.Over? && !c.at.Crashed?
  }

  predicate IsRefused(c: Call) {
    c.at == Over(TooMany) || c.at == Over(ProjectBusy)
  }

  function GateAt(gates: map<string, Gate>, key: string): Gate {
    if key in gates then gates[key] else FRESH
  }

  function View(now: int, g: Gate): G.State {
    G.State(now, g.slots, g.acquirers)
  }

  /** The command an acquirer sends next. */
  function Command(a: G.Phase, p: nat): G.Step {
    match a
    case Purging(_, _) => G.PurgeStale(p)
    case Counting(_, _) => G.Count(p)
    case Testing(_, _) => G.Test(p)
    case Adding(_, _) => G.AddSlot(p)
    case Expiring(_, _) => G.SetExpiry(p)
  }

  function Entered(g: Gate, now: int, p: nat, task: string): Gate {
    Gate(g.slots, g.acquirers[p := G.Purging(task, now)])
  }

  function Turned(limit: int, now: int, g: Gate, p: nat): Gate
    requires p in g.acquirers
  {
    var t := G.Next(limit, View(now, g), Command(g.acquirers[p], p)).value;
    Gate(t.slots, t.acquirers)
  }

  function Freed(g: Gate, now: int, task: string): Gate {
    g.(slots := Remove(g.slots, now, task))
  }

  function Left(g: Gate, p: nat): Gate {
    g.(acquirers := g.acquirers - {p})
  }

  /** Where a call is after its command in a gate: still inside, past it, or refused. */
  function After(g: Gate, turned: Gate, p: nat, inside: Point, past: Point, refused: Point): Point
    requires p in g.acquirers
  {
    if p in turned.acquirers then inside else if g.acquirers[p].Expiring? then past else refused
  }

  function Move(s: State, p: nat, at: Point): State
    requires p in s.calls
  {
    s.(calls := s.calls[p := s.calls[p].(at := at)])
  }

  function WithSlotEntry(s: State, p: nat): State
    requires p in s.calls
  {
    var c := s.calls[p];
    Move(s, p, SlotGate).(accounts := s.accounts[c.email := Entered(GateAt(s.accounts, c.email), s.now, p, c.task)])
  }

  function WithMarkEntry(s: State, p: nat): State
    requires p in s.calls
  {
    var c := s.calls[p];
    Move(s, p, MarkGate).(projects := s.projects[c.project := Entered(GateAt(s.projects, c.project), s.now, p, c.task)])
  }

  function SlotTurn(s: State, p: nat): State
    requires p in s.calls && p in GateAt(s.accounts, s.calls[p].email).acquirers
  {
    var c := s.calls[p];
    var g := GateAt(s.accounts, c.email);
    var turned := Turned(CONCURRENCY_LIMIT, s.now, g, p);
    Move(s, p, After(g, turned, p, SlotGate, Between, Over(TooMany))).(accounts := s.accounts[c.email := turned])
  }

  function MarkTurn(s: State, p: nat): State
    requires p in s.calls && p in GateAt(s.projects, s.calls[p].project).acquirers
  {
    var c := s.calls[p];
    var g := GateAt(s.projects, c.project);
    var turned := Turned(1, s.now, g, p);
    Move(s, p, After(g, turned, p, MarkGate, HandingOver, GivingBack)).(projects := s.projects[c.project := turned])
  }

  function Advanced(s: State, p: nat): Option<State>
    requires p in s.calls
  {
    var c := s.calls[p];
    match c.at
    case Start => Some(if TakesSlot(c) then WithSlotEntry(s, p) else Move(s, p, Between))
    case SlotGate => if p in GateAt(s.accounts, c.email).acquirers then Some(SlotTurn(s, p)) else None
    case Between => Some(if TakesMark(c) then WithMarkEntry(s, p) else Move(s, p, HandingOver))
    case MarkGate => if p in GateAt(s.projects, c.project).acquirers then Some(MarkTurn(s, p)) else None
    case GivingBack =>
      var g := GateAt(s.accounts, c.email);
      Some(Move(s, p, Over(ProjectBusy)).(accounts := s.accounts[c.email := Freed(g, s.now, c.task)]))
    case _ => None
  }

  function Next(s: State, step: Step): Option<State> {
    match step
    case Tick(elapsed) => Some(s.(now := s.now + elapsed))
    case Begin(p, function_, task, email, project) =>
      if p in s.calls then None
      else Some(s.(calls := s.calls[p := Call(function_, task, email, project, Start)]))
    case Advance(p) => if p in s.calls then Advanced(s, p) else None
    case HandOver(p, ok) =>
      if p in s.calls && s.calls[p].at.HandingOver?
      then Some(Move(s, p, Over(if ok then Enqueued else QueueFailed))) else None
    case FreeSlot(email, task) =>
      if email == "" then Some(s)
      else Some(s.(accounts := s.accounts[email := Freed(GateAt(s.accounts, email), s.now, task)]))
    case FreeMark(project, task) =>
      if project == "" then Some(s)
      else Some(s.(projects := s.projects[project := Freed(GateAt(s.projects, project), s.now, task)]))
    case Crash(p) =>
      if p in s.calls && InFlight(s.calls[p]) then
        var c := s.calls[p];
        Some(Move(s, p, Crashed)
             .(accounts := s.accounts[c.email := Left(GateAt(s.accounts, c.email), p)],
               projects := s.projects[c.project := Left(GateAt(s.projects, c.project), p)]))
      else None
  }

  ghost predicate IsRun(steps: seq<Step>, states: seq<State>) {
    && |states| == |steps| + 1
    && states[0].accounts == map[] && states[0].projects == map[] && states[0].calls == map[]
    && forall i {:trigger Next(states[i], steps[i])} | 0 <= i < |steps| :: Next(states[i], steps[i]) == Some(states[i + 1])
  }

  // ---- Who is in a gate ----------------------------------------------------------------

  /** An acquirer in an account's gate is a call for that account that is at its slot gate. */
  ghost predicate SlotsSeated(s: State) {
    forall e, q | q in GateAt(s.accounts, e).acquirers ::
      q in s.calls && s.calls[q].at.SlotGate? && s.calls[q].email == e
      && GateAt(s.accounts, e).acquirers[q].task == s.calls[q].task
  }

  ghost predicate MarksSeated(s: State) {
    forall k, q | q in GateAt(s.projects, k).acquirers ::
      q in s.calls && s.calls[q].at.MarkGate? && s.calls[q].project == k
      && GateAt(s.projects, k).acquirers[q].task == s.calls[q].task
  }

  /** A command changes only its own acquirer, and not the task it is for. */
  lemma TurnKeepsAcquirers(limit: int, now: int, g: Gate, p: nat)
    requires p in g.acquirers
    ensures var t := Turned(limit, now, g, p);
            && (forall q | q != p :: q in t.acquirers <==> q in g.acquirers)
            && (forall q | q != p && q in g.acquirers :: t.acquirers[q] == g.acquirers[q])
            && (p in t.acquirers ==> t.acquirers[p].task == g.acquirers[p].task)
  {
  }

  lemma InSlotGate(s: State, p: nat, k: string)
    requires SlotsSeated(s) && p in GateAt(s.accounts, k).acquirers
    ensures p in s.calls && s.calls[p].at == SlotGate && s.calls[p].email == k
  {
  }

  lemma EnterSlotSeated(s: State, p: nat)
    requires SlotsSeated(s) && p in s.calls && s.calls[p].at == Start
    ensures SlotsSeated(WithSlotEntry(s, p))
  {
    var c, t := s.calls[p], WithSlotEntry(s, p);
    forall k, q | q in GateAt(t.accounts, k).acquirers
      ensures q in t.calls && t.calls[q].at == SlotGate && t.calls[q].email == k
      ensures GateAt(t.accounts, k).acquirers[q].task == t.calls[q].task
    {
      if q != p {
        assert q in GateAt(s.accounts, k).acquirers;
      } else if k != c.email {
        InSlotGate(s, p, k);
      }
    }
  }

  lemma SlotTurnSeated(s: State, p: nat)
    requires SlotsSeated(s) && p in s.calls && s.calls[p].at == SlotGate
    requires p in GateAt(s.accounts, s.calls[p].email).acquirers
    ensures SlotsSeated(SlotTurn(s, p))
  {
    var c, t := s.calls[p], SlotTurn(s, p);
    TurnKeepsAcquirers(CONCURRENCY_LIMIT, s.now, GateAt(s.accounts, c.email), p);
    forall k, q | q in GateAt(t.accounts, k).acquirers ensures q in GateAt(s.accounts, k).acquirers {
    }
  }

  lemma AdvanceKeepsSlotsSeated(s: State, p: nat, t: State)
    requires SlotsSeated(s) && p in s.calls && Advanced(s, p) == Some(t)
    ensures SlotsSeated(t)
  {
    if s.calls[p].at == SlotGate {
      SlotTurnSeated(s, p);
    } else if s.calls[p].at == Start && TakesSlot(s.calls[p]) {
      EnterSlotSeated(s, p);
    } else {
      forall k, q | q in GateAt(t.accounts, k).acquirers ensures q in GateAt(s.accounts, k).acquirers && q != p {
        if q == p { InSlotGate(s, p, k); }
      }
    }
  }

  lemma InMarkGate(s: State, p: nat, k: string)
    requires MarksSeated(s) && p in GateAt(s.projects, k).acquirers
    ensures p in s.calls && s.calls[p].at == MarkGate && s.calls[p].project == k
  {
  }

  lemma EnterMarkSeated(s: State, p: nat)
    requires MarksSeated(s) && p in s.calls && s.calls[p].at == Between
    ensures MarksSeated(WithMarkEntry(s, p))
  {
    var c, t := s.calls[p], WithMarkEntry(s, p);
    forall k, q | q in GateAt(t.projects, k).acquirers
      ensures q in t.calls && t.calls[q].at == MarkGate && t.calls[q].project == k
      ensures GateAt(t.projects, k).acquirers[q].task == t.calls[q].task
    {
      if q != p {
        assert q in GateAt(s.projects, k).acquirers;
      } else if k != c.project {
        InMarkGate(s, p, k);
      }
    }
  }

  lemma MarkTurnSeated(s: State, p: nat)
    requires MarksSeated(s) && p in s.calls && s.calls[p].at == MarkGate
    requires p in GateAt(s.projects, s.calls[p].project).acquirers
    ensures MarksSeated(MarkTurn(s, p))
  {
    var c, t := s.calls[p], MarkTurn(s, p);
    TurnKeepsAcquirers(1, s.now, GateAt(s.projects, c.project), p);
    forall k, q | q in GateAt(t.projects, k).acquirers ensures q in GateAt(s.projects, k).acquirers {
    }
  }

  lemma AdvanceKeepsMarksSeated(s: State, p: nat, t: State)
    requires MarksSeated(s) && p in s.calls && Advanced(s, p) == Some(t)
    ensures MarksSeated(t)
  {
    if s.calls[p].at == MarkGate {
      MarkTurnSeated(s, p);
    } else if s.calls[p].at == Between && TakesMark(s.calls[p]) {
      EnterMarkSeated(s, p);
    } else {
      forall k, q | q in GateAt(t.projects, k).acquirers ensures q in GateAt(s.projects, k).acquirers && q != p {
        if q == p { InMarkGate(s, p, k); }
      }
    }
  }

  lemma OthersKeepSlotsSeated(s: State, step: Step, t: State)
    requires SlotsSeated(s) && Next(s, step) == Some(t) && !step.Advance?
    ensures SlotsSeated(t)
  {
    forall e, q | q in GateAt(t.accounts, e).acquirers ensures q in GateAt(s.accounts, e).acquirers {
    }
  }

  lemma OthersKeepMarksSeated(s: State, step: Step, t: State)
    requires MarksSeated(s) && Next(s, step) == Some(t) && !step.Advance?
    ensures MarksSeated(t)
  {
    forall k, q | q in GateAt(t.projects, k).acquirers ensures q in GateAt(s.projects, k).acquirers {
    }
  }

  lemma {:induction false} RunIsSeated(steps: seq<Step>, states: seq<State>, i: nat)
    requires IsRun(steps, states) && i < |states|
    ensures SlotsSeated(states[i]) && MarksSeated(states[i])
  {
    if i > 0 {
      RunIsSeated(steps, states, i - 1);
      var s, step, t := states[i - 1], steps[i - 1], states[i];
      assert Next(s, step) == Some(t);
      if step.Advance? {
        AdvanceKeepsSlotsSeated(s, step.p, t);
        AdvanceKeepsMarksSeated(s, step.p, t);
      } else {
        OthersKeepSlotsSeated(s, step, t);
        OthersKeepMarksSeated(s, step, t);
      }
    }
  }

  // ---- A refused call leaves nothing ---------------------------------------------------

  predicate NotIn(gates: map<string, Gate>, key: string, now: int, task: string) {
    task !in Live(GateAt(gates, key).slots, now)
  }

  /** No other call for p's task is in flight. */
  ghost predicate Alone(s: State, p: nat)
    requires p in s.calls
  {
    forall q | q in s.calls && q != p && InFlight(s.calls[q]) :: s.calls[q].task != s.calls[p].task
  }

  /** p has sent its ZADD to this gate and is still inside. */
  predicate HasAdded(g: Gate, p: nat) {
    p in g.acquirers && g.acquirers[p].Expiring?
  }

  /** Where the task of p cannot be: in the project's set until p has added it there, and in
      the account's until it has added it there, or once it has been refused. */
  ghost predicate Clean(s: State, p: nat)
    requires p in s.calls
  {
    var c := s.calls[p];
    && (c.at.Start? || (c.at.SlotGate? && !HasAdded(GateAt(s.accounts, c.email), p)) || IsRefused(c) ==>
          NotIn(s.accounts, c.email, s.now, c.task))
    && (c.at.Start? || c.at.SlotGate? || c.at.Between? || (c.at.MarkGate? && !HasAdded(GateAt(s.projects, c.project), p))
        || c.at.GivingBack? || IsRefused(c) ==>
          NotIn(s.projects, c.project, s.now, c.task))
  }

  /** A command adds no task but its own acquirer's, and that only as the last one. */
  lemma TurnAddsOwn(limit: int, now: int, g: Gate, p: nat, task: string)
    requires p in g.acquirers && task !in Live(g.slots, now)
    requires g.acquirers[p].task != task || !g.acquirers[p].Adding?
    ensures task !in Live(Turned(limit, now, g, p).slots, now)
  {
    var s, step := View(now, g), Command(g.acquirers[p], p);
    G.OnlyAddsAdd(limit, s, step, G.Next(limit, s, step).value, task);
  }

  /** A call that has not sent its ZADD has added nothing, and one that has is not refused. */
  lemma OwnSlotTurnKeepsClean(s: State, p: nat)
    requires p in s.calls && s.calls[p].at.SlotGate? && p in GateAt(s.accounts, s.calls[p].email).acquirers
    requires Clean(s, p)
    ensures Clean(SlotTurn(s, p), p)
  {
    var c := s.calls[p];
    var g := GateAt(s.accounts, c.email);
    if !g.acquirers[p].Adding? && !g.acquirers[p].Expiring? { TurnAddsOwn(CONCURRENCY_LIMIT, s.now, g, p, c.task); }
  }

  lemma OwnMarkTurnKeepsClean(s: State, p: nat)
    requires p in s.calls && s.calls[p].at.MarkGate? && p in GateAt(s.projects, s.calls[p].project).acquirers
    requires Clean(s, p)
    ensures Clean(MarkTurn(s, p), p)
  {
    var c := s.calls[p];
    var g := GateAt(s.projects, c.project);
    if !g.acquirers[p].Adding? && !g.acquirers[p].Expiring? { TurnAddsOwn(1, s.now, g, p, c.task); }
  }

  lemma OwnAdvanceKeepsClean(s: State, p: nat, t: State)
    requires p in s.calls && Clean(s, p) && Advanced(s, p) == Some(t)
    ensures p in t.calls && Clean(t, p)
  {
    var c := s.calls[p];
    if c.at.SlotGate? {
      OwnSlotTurnKeepsClean(s, p);
    } else if c.at.MarkGate? {
      OwnMarkTurnKeepsClean(s, p);
    }
  }

  lemma OtherSlotTurnKeepsOut(s: State, q: nat, key: string, task: string)
    requires SlotsSeated(s) && q in s.calls && q in GateAt(s.accounts, s.calls[q].email).acquirers
    requires s.calls[q].task != task && NotIn(s.accounts, key, s.now, task)
    ensures NotIn(SlotTurn(s, q).accounts, key, s.now, task)
  {
    var e := s.calls[q].email;
    if key == e { TurnAddsOwn(CONCURRENCY_LIMIT, s.now, GateAt(s.accounts, e), q, task); }
  }

  lemma OtherMarkTurnKeepsOut(s: State, q: nat, key: string, task: string)
    requires MarksSeated(s) && q in s.calls && q in GateAt(s.projects, s.calls[q].project).acquirers
    requires s.calls[q].task != task && NotIn(s.projects, key, s.now, task)
    ensures NotIn(MarkTurn(s, q).projects, key, s.now, task)
  {
    var k := s.calls[q].project;
    if key == k { TurnAddsOwn(1, s.now, GateAt(s.projects, k), q, task); }
  }

  lemma OtherAdvanceKeepsOut(s: State, q: nat, t: State, key: string, task: string)
    requires SlotsSeated(s) && MarksSeated(s) && q in s.calls && Advanced(s, q) == Some(t) && s.calls[q].task != task
    ensures t.now == s.now
    ensures NotIn(s.accounts, key, s.now, task) ==> NotIn(t.accounts, key, s.now, task)
    ensures NotIn(s.projects, key, s.now, task) ==> NotIn(t.projects, key, s.now, task)
  {
    if s.calls[q].at.SlotGate? && NotIn(s.accounts, key, s.now, task) {
      OtherSlotTurnKeepsOut(s, q, key, task);
    } else if s.calls[q].at.MarkGate? && NotIn(s.projects, key, s.now, task) {
      OtherMarkTurnKeepsOut(s, q, key, task);
    }
  }

  lemma AdvanceKeepsTheirs(s: State, q: nat, t: State, p: nat)
    requires p in s.calls && q in s.calls && Advanced(s, q) == Some(t)
    ensures p in t.calls && t.calls[p] == s.calls[p].(at := t.calls[p].at)
    ensures p != q ==> t.calls[p] == s.calls[p]
  {
  }

  /** Another call's command leaves p where it is in each gate. */
  lemma OtherAdvanceKeepsPhase(s: State, q: nat, t: State, p: nat, key: string)
    requires q in s.calls && q != p && Advanced(s, q) == Some(t)
    ensures HasAdded(GateAt(t.accounts, key), p) <==> HasAdded(GateAt(s.accounts, key), p)
    ensures HasAdded(GateAt(t.projects, key), p) <==> HasAdded(GateAt(s.projects, key), p)
  {
    var c := s.calls[q];
    if c.at.SlotGate? {
      TurnKeepsAcquirers(CONCURRENCY_LIMIT, s.now, GateAt(s.accounts, c.email), q);
    } else if c.at.MarkGate? {
      TurnKeepsAcquirers(1, s.now, GateAt(s.projects, c.project), q);
    }
  }

  lemma OtherAdvanceKeepsClean(s: State, p: nat, q: nat, t: State)
    requires p in s.calls && Clean(s, p) && Alone(s, p) && SlotsSeated(s) && MarksSeated(s)
    requires q in s.calls && q != p && Advanced(s, q) == Some(t)
    ensures p in t.calls && Clean(t, p)
  {
    var c := s.calls[p];
    assert InFlight(s.calls[q]);
    OtherAdvanceKeepsOut(s, q, t, c.email, c.task);
    OtherAdvanceKeepsOut(s, q, t, c.project, c.task);
    OtherAdvanceKeepsPhase(s, q, t, p, c.email);
    OtherAdvanceKeepsPhase(s, q, t, p, c.project);
    AdvanceKeepsTheirs(s, q, t, p);
  }

  lemma OtherStepsKeepClean(s: State, step: Step, t: State, p: nat)
    requires p in s.calls && Clean(s, p) && Next(s, step) == Some(t) && !step.Advance?
    ensures p in t.calls && Clean(t, p)
  {
  }

  lemma CallsKeepTheirs(s: State, step: Step, t: State, p: nat)
    requires p in s.calls && Next(s, step) == Some(t)
    ensures p in t.calls && t.calls[p] == s.calls[p].(at := t.calls[p].at)
  {
    if step.Advance? { AdvanceKeepsTheirs(s, step.p, t, p); }
  }

  lemma StepKeepsClean(s: State, step: Step, t: State, p: nat)
    requires p in s.calls && Clean(s, p) && Alone(s, p) && SlotsSeated(s) && MarksSeated(s)
    requires Next(s, step) == Some(t)
    ensures p in t.calls && Clean(t, p) && t.calls[p] == s.calls[p].(at := t.calls[p].at)
  {
    CallsKeepTheirs(s, step, t, p);
    if !step.Advance? {
      OtherStepsKeepClean(s, step, t, p);
    } else if step.p == p {
      OwnAdvanceKeepsClean(s, p, t);
    } else {
      OtherAdvanceKeepsClean(s, p, step.p, t);
    }
  }

  /** From its beginning to state k, p has been the only call for its task in flight. */
  ghost predicate AloneUntil(states: seq<State>, i: nat, k: nat, p: nat)
    requires k < |states|
  {
    forall n | i <= n <= k :: p in states[n].calls && Alone(states[n], p)
  }

  lemma {:induction false} RunKeepsClean(steps: seq<Step>, states: seq<State>, i: nat, k: nat, p: nat)
    requires IsRun(steps, states) && i <= k < |states| && AloneUntil(states, i, k, p) && Clean(states[i], p)
    ensures Clean(states[k], p) && states[k].calls[p] == states[i].calls[p].(at := states[k].calls[p].at)
  {
    if k > i {
      RunKeepsClean(steps, states, i, k - 1, p);
      RunIsSeated(steps, states, k - 1);
      assert Alone(states[k - 1], p);
      StepKeepsClean(states[k - 1], steps[k - 1], states[k], p);
    }
  }

  /** A 409 or a 429 leaves a task id that was in neither set in neither, whatever other
      calls, job ends and crashes do meanwhile, as long as no other call for the same id is
      in flight: at the refusal and at every later moment up to which that is so. */
  lemma RefusedLeavesNothing(steps: seq<Step>, states: seq<State>, i: nat, k: nat)
    requires IsRun(steps, states) && i < k < |states| && steps[i].Begin?
    requires NotIn(states[i].accounts, steps[i].email, states[i].now, steps[i].task)
    requires NotIn(states[i].projects, steps[i].project, states[i].now, steps[i].task)
    requires AloneUntil(states, i + 1, k, steps[i].p)
    requires states[k].calls[steps[i].p].at in {Over(TooMany), Over(ProjectBusy)}
    ensures NotIn(states[k].accounts, steps[i].email, states[k].now, steps[i].task)
    ensures NotIn(states[k].projects, steps[i].project, states[k].now, steps[i].task)
  {
    assert Next(states[i], steps[i]) == Some(states[i + 1]);
    RunKeepsClean(steps, states, i + 1, k, steps[i].p);
  }

  // ---- Each gate by itself -------------------------------------------------------------

  /** What a step is for the gate of account e: one of its commands, or nothing. */
  function AccountStep(s: State, step: Step, e: string): G.Step {
    match step
    case Tick(elapsed) => G.Tick(elapsed)
    case Advance(p) =>
      if p !in s.calls || s.calls[p].email != e then G.Tick(0)
      else
        var c, g := s.calls[p], GateAt(s.accounts, e);
        if c.at.Start? && TakesSlot(c) then G.Begin(p, c.task)
        else if c.at.SlotGate? && p in g.acquirers then Command(g.acquirers[p], p)
        else if c.at.GivingBack? then G.Release(c.task)
        else G.Tick(0)
    case FreeSlot(email, task) => if email == e && e != "" then G.Release(task) else G.Tick(0)
    case Crash(p) => if p in GateAt(s.accounts, e).acquirers then G.Crash(p) else G.Tick(0)
    case _ => G.Tick(0)
  }

  function ProjectStep(s: State, step: Step, k: string): G.Step {
    match step
    case Tick(elapsed) => G.Tick(elapsed)
    case Advance(p) =>
      if p !in s.calls || s.calls[p].project != k then G.Tick(0)
      else
        var c, g := s.calls[p], GateAt(s.projects, k);
        if c.at.Between? && TakesMark(c) then G.Begin(p, c.task)
        else if c.at.MarkGate? && p in g.acquirers then Command(g.acquirers[p], p)
        else G.Tick(0)
    case FreeMark(project, task) => if project == k && k != "" then G.Release(task) else G.Tick(0)
    case Crash(p) => if p in GateAt(s.projects, k).acquirers then G.Crash(p) else G.Tick(0)
    case _ => G.Tick(0)
  }

  lemma AccountFollowsTurn(s: State, p: nat, e: string)
    requires SlotsSeated(s) && p in s.calls && s.calls[p].at == SlotGate
    requires p in GateAt(s.accounts, s.calls[p].email).acquirers
    ensures G.Next(CONCURRENCY_LIMIT, View(s.now, GateAt(s.accounts, e)), AccountStep(s, Advance(p), e))
         == Some(View(s.now, GateAt(SlotTurn(s, p).accounts, e)))
  {
  }

  lemma AccountFollowsCall(s: State, p: nat, t: State, e: string)
    requires SlotsSeated(s) && p in s.calls && Advanced(s, p) == Some(t)
    ensures G.Next(CONCURRENCY_LIMIT, View(s.now, GateAt(s.accounts, e)), AccountStep(s, Advance(p), e))
         == Some(View(t.now, GateAt(t.accounts, e)))
  {
    if s.calls[p].at == SlotGate {
      AccountFollowsTurn(s, p, e);
    } else if p in GateAt(s.accounts, e).acquirers {
      InSlotGate(s, p, e);
    }
  }

  lemma AccountFollowsCrash(s: State, p: nat, t: State, e: string)
    requires SlotsSeated(s) && Next(s, Crash(p)) == Some(t)
    ensures G.Next(CONCURRENCY_LIMIT, View(s.now, GateAt(s.accounts, e)), AccountStep(s, Crash(p), e))
         == Some(View(t.now, GateAt(t.accounts, e)))
  {
    if p in GateAt(s.accounts, e).acquirers {
      InSlotGate(s, p, e);
    } else {
      LeavesOwnGate(s.accounts, p, s.calls[p].email, e);
    }
  }

  lemma AccountFollowsFree(s: State, key: string, task: string, t: State, e: string)
    requires Next(s, FreeSlot(key, task)) == Some(t)
    ensures G.Next(CONCURRENCY_LIMIT, View(s.now, GateAt(s.accounts, e)), AccountStep(s, FreeSlot(key, task), e))
         == Some(View(t.now, GateAt(t.accounts, e)))
  {
  }

  lemma AccountFollows(s: State, step: Step, t: State, e: string)
    requires SlotsSeated(s) && Next(s, step) == Some(t)
    ensures G.Next(CONCURRENCY_LIMIT, View(s.now, GateAt(s.accounts, e)), AccountStep(s, step, e))
         == Some(View(t.now, GateAt(t.accounts, e)))
  {
    match step
    case Advance(p) => AccountFollowsCall(s, p, t, e);
    case Crash(p) => AccountFollowsCrash(s, p, t, e);
    case FreeSlot(key, task) => AccountFollowsFree(s, key, task, t, e);
    case _ =>
  }

  lemma ProjectFollowsTurn(s: State, p: nat, e: string)
    requires MarksSeated(s) && p in s.calls && s.calls[p].at == MarkGate
    requires p in GateAt(s.projects, s.calls[p].project).acquirers
    ensures G.Next(1, View(s.now, GateAt(s.projects, e)), ProjectStep(s, Advance(p), e))
         == Some(View(s.now, GateAt(MarkTurn(s, p).projects, e)))
  {
  }

  lemma ProjectFollowsCall(s: State, p: nat, t: State, e: string)
    requires MarksSeated(s) && p in s.calls && Advanced(s, p) == Some(t)
    ensures G.Next(1, View(s.now, GateAt(s.projects, e)), ProjectStep(s, Advance(p), e))
         == Some(View(t.now, GateAt(t.projects, e)))
  {
    if s.calls[p].at == MarkGate {
      ProjectFollowsTurn(s, p, e);
    } else if p in GateAt(s.projects, e).acquirers {
      InMarkGate(s, p, e);
    }
  }

  lemma ProjectFollowsCrash(s: State, p: nat, t: State, e: string)
    requires MarksSeated(s) && Next(s, Crash(p)) == Some(t)
    ensures G.Next(1, View(s.now, GateAt(s.projects, e)), ProjectStep(s, Crash(p), e))
         == Some(View(t.now, GateAt(t.projects, e)))
  {
    if p in GateAt(s.projects, e).acquirers {
      InMarkGate(s, p, e);
    } else {
      LeavesOwnGate(s.projects, p, s.calls[p].project, e);
    }
  }

  lemma ProjectFollowsFree(s: State, key: string, task: string, t: State, e: string)
    requires Next(s, FreeMark(key, task)) == Some(t)
    ensures G.Next(1, View(s.now, GateAt(s.projects, e)), ProjectStep(s, FreeMark(key, task), e))
         == Some(View(t.now, GateAt(t.projects, e)))
  {
  }

  lemma ProjectFollows(s: State, step: Step, t: State, e: string)
    requires MarksSeated(s) && Next(s, step) == Some(t)
    ensures G.Next(1, View(s.now, GateAt(s.projects, e)), ProjectStep(s, step, e))
         == Some(View(t.now, GateAt(t.projects, e)))
  {
    match step
    case Advance(p) => ProjectFollowsCall(s, p, t, e);
    case Crash(p) => ProjectFollowsCrash(s, p, t, e);
    case FreeMark(key, task) => ProjectFollowsFree(s, key, task, t, e);
    case _ =>
  }

  lemma LeavesOwnGate(gates: map<string, Gate>, p: nat, own: string, key: string)
    ensures p !in GateAt(gates, key).acquirers ==> Left(GateAt(gates, key), p) == GateAt(gates, key)
  {
    var g := GateAt(gates, key);
    if p !in g.acquirers { assert g.acquirers - {p} == g.acquirers; }
  }

  function AccountViews(states: seq<State>, e: string): seq<G.State> {
    seq(|states|, i requires 0 <= i < |states| => View(states[i].now, GateAt(states[i].accounts, e)))
  }

  function ProjectViews(states: seq<State>, k: string): seq<G.State> {
    seq(|states|, i requires 0 <= i < |states| => View(states[i].now, GateAt(states[i].projects, k)))
  }

  /** Seen from any one account or project, a run of enqueues is a run of its gate: what
      GateProtocol proves of every run of a gate holds here. */
  lemma GatesRefined(steps: seq<Step>, states: seq<State>, key: string)
    returns (slotSteps: seq<G.Step>, markSteps: seq<G.Step>)
    requires IsRun(steps, states)
    ensures G.IsRun(CONCURRENCY_LIMIT, slotSteps, AccountViews(states, key))
    ensures G.IsRun(1, markSteps, ProjectViews(states, key))
  {
    slotSteps := seq(|steps|, i requires 0 <= i < |steps| < |states| => AccountStep(states[i], steps[i], key));
    markSteps := seq(|steps|, i requires 0 <= i < |steps| < |states| => ProjectStep(states[i], steps[i], key));
    var slots, marks := AccountViews(states, key), ProjectViews(states, key);
    forall i | 0 <= i < |steps|
      ensures G.Next(CONCURRENCY_LIMIT, slots[i], slotSteps[i]) == Some(slots[i + 1])
      ensures G.Next(1, marks[i], markSteps[i]) == Some(marks[i + 1])
    {
      assert Next(states[i], steps[i]) == Some(states[i + 1]);
      RunIsSeated(steps, states, i);
      AccountFollows(states[i], steps[i], states[i + 1], key);
      ProjectFollows(states[i], steps[i], states[i + 1], key);
    }
  }

  /** For one: with at most `width` calls between test and add in an account's gate, the
      account has at most one slot less than its limit plus that many. */
  lemma AccountWithinBound(steps: seq<Step>, states: seq<State>, e: string, width: nat, i: nat)
    requires IsRun(steps, states) && width >= 1 && i < |states|
    requires G.WithinWidth(width, AccountViews(states, e))
    ensures |Live(GateAt(states[i].accounts, e).slots, states[i].now)| <= CONCURRENCY_LIMIT - 1 + width
  {
    var slotSteps, markSteps := GatesRefined(steps, states, e);
    G.SlotBound(CONCURRENCY_LIMIT, width, slotSteps, AccountViews(states, e), i);
  }

  // ---- A call without interference -----------------------------------------------------

  /** The gate after n commands of p, as long as it is inside. */
  ghost function Turns(limit: int, now: int, g: Gate, p: nat, n: nat): Gate {
    if n == 0 then g
    else
      var h := Turns(limit, now, g, p, n - 1);
      if p in h.acquirers then Turned(limit, now, h, p) else h
  }

  ghost predicate Inside(limit: int, now: int, g: Gate, p: nat, n: nat) {
    forall m: nat | m < n :: p in Turns(limit, now, g, p, m).acquirers
  }

  lemma TurnIs(limit: int, now: int, g: Gate, p: nat, h: Gate)
    requires p in g.acquirers && G.Next(limit, View(now, g), Command(g.acquirers[p], p)) == Some(View(now, h))
    ensures Turned(limit, now, g, p) == h
  {
  }

  lemma OneMoreTurn(limit: int, now: int, g: Gate, p: nat, n: nat, h: Gate, k: Gate)
    requires Inside(limit, now, g, p, n) && Turns(limit, now, g, p, n) == h
    requires p in h.acquirers && G.Next(limit, View(now, h), Command(h.acquirers[p], p)) == Some(View(now, k))
    ensures Inside(limit, now, g, p, n + 1) && Turns(limit, now, g, p, n + 1) == k
  {
    TurnIs(limit, now, h, p, k);
  }

  lemma Overwritten<K, V>(m: map<K, V>, k: K, a: V, b: V)
    ensures m[k := a][k := b] == m[k := b]
  {
  }

  lemma LeavesAsBefore<K, V>(m: map<K, V>, k: K, a: V)
    requires k !in m
    ensures m[k := a] - {k} == m
  {
  }

  /** An acquirer alone at its gate leaves it as the acquire in one piece does, and its last
      command is the EXPIRE exactly when it gets in. */
  lemma LoneTurns(limit: int, now: int, g: Gate, p: nat, task: string) returns (n: nat)
    requires p !in g.acquirers
    ensures n > 0
    ensures var in_ := Entered(g, now, p, task);
            && Inside(limit, now, in_, p, n)
            && Turns(limit, now, in_, p, n) == Gate(Acquired(g.slots, now, limit, task), g.acquirers)
            && (Turns(limit, now, in_, p, n - 1).acquirers[p].Expiring? <==> HasRoom(g.slots, now, limit, task))
  {
    var in_, z, young := Entered(g, now, p, task), Purge(g.slots, now, now), Young(g.slots, now);
    PurgeLeavesYoung(g.slots, now);
    AcquireMeans(g.slots, now, limit, task);
    var counting := Gate(z, g.acquirers[p := G.Counting(task, now)]);
    Overwritten(g.acquirers, p, G.Purging(task, now), G.Counting(task, now));
    OneMoreTurn(limit, now, in_, p, 0, in_, counting);
    var adding := Gate(z, g.acquirers[p := G.Adding(task, now)]);
    var testing := Gate(z, g.acquirers[p := G.Testing(task, now)]);
    Overwritten(g.acquirers, p, G.Counting(task, now), G.Adding(task, now));
    Overwritten(g.acquirers, p, G.Counting(task, now), G.Testing(task, now));
    Overwritten(g.acquirers, p, G.Testing(task, now), G.Adding(task, now));
    if |young| < limit {
      OneMoreTurn(limit, now, in_, p, 1, counting, adding);
      LoneAdd(limit, now, g, in_, p, 2, z, task);
      n := 4;
    } else {
      OneMoreTurn(limit, now, in_, p, 1, counting, testing);
      if task in young && young[task] != 0 {
        OneMoreTurn(limit, now, in_, p, 2, testing, adding);
        LoneAdd(limit, now, g, in_, p, 3, z, task);
        n := 5;
      } else {
        LeavesAsBefore(g.acquirers, p, G.Testing(task, now));
        OneMoreTurn(limit, now, in_, p, 2, testing, Gate(z, g.acquirers));
        n := 3;
      }
    }
  }

  lemma LoneAdd(limit: int, now: int, g: Gate, in_: Gate, p: nat, n: nat, z: ZSet, task: string)
    requires p !in g.acquirers && Inside(limit, now, in_, p, n)
    requires Turns(limit, now, in_, p, n) == Gate(z, g.acquirers[p := G.Adding(task, now)])
    ensures Inside(limit, now, in_, p, n + 2)
    ensures Turns(limit, now, in_, p, n + 1).acquirers == g.acquirers[p := G.Expiring(task, now)]
    ensures Turns(limit, now, in_, p, n + 2) == Gate(Add(z, now, now, task), g.acquirers)
  {
    LoneZAdd(limit, now, g, in_, p, n, z, task);
    LoneExpire(limit, now, g, in_, p, n + 1, ZAdd(z, now, now, task), task);
  }

  lemma LoneZAdd(limit: int, now: int, g: Gate, in_: Gate, p: nat, n: nat, z: ZSet, task: string)
    requires p !in g.acquirers && Inside(limit, now, in_, p, n)
    requires Turns(limit, now, in_, p, n) == Gate(z, g.acquirers[p := G.Adding(task, now)])
    ensures Inside(limit, now, in_, p, n + 1)
    ensures Turns(limit, now, in_, p, n + 1) == Gate(ZAdd(z, now, now, task), g.acquirers[p := G.Expiring(task, now)])
  {
    Overwritten(g.acquirers, p, G.Adding(task, now), G.Expiring(task, now));
    OneMoreTurn(limit, now, in_, p, n, Gate(z, g.acquirers[p := G.Adding(task, now)]),
                Gate(ZAdd(z, now, now, task), g.acquirers[p := G.Expiring(task, now)]));
  }

  lemma LoneExpire(limit: int, now: int, g: Gate, in_: Gate, p: nat, n: nat, z: ZSet, task: string)
    requires p !in g.acquirers && Inside(limit, now, in_, p, n)
    requires Turns(limit, now, in_, p, n) == Gate(z, g.acquirers[p := G.Expiring(task, now)])
    ensures Inside(limit, now, in_, p, n + 1)
    ensures Turns(limit, now, in_, p, n + 1) == Gate(Expire(z, now), g.acquirers)
  {
    LeavesAsBefore(g.acquirers, p, G.Expiring(task, now));
    OneMoreTurn(limit, now, in_, p, n, Gate(z, g.acquirers[p := G.Expiring(task, now)]), Gate(Expire(z, now), g.acquirers));
  }

  ghost function Iterate<T>(f: T -> Option<T>, x: T, n: nat): Option<T> {
    if n == 0 then Some(x)
    else
      var y := Iterate(f, x, n - 1);
      if y.None? then None else f(y.value)
  }

  lemma {:induction false} IterateAdd<T>(f: T -> Option<T>, x: T, m: nat, y: T, n: nat)
    requires Iterate(f, x, m) == Some(y)
    ensures Iterate(f, x, m + n) == Iterate(f, y, n)
  {
    if n > 0 { IterateAdd(f, x, m, y, n - 1); }
  }

  lemma IterateOnce<T>(f: T -> Option<T>, x: T)
    ensures Iterate(f, x, 1) == f(x)
  {
    assert Iterate(f, x, 0) == Some(x);
  }

  function Advancing(p: nat): State -> Option<State> {
    s => Next(s, Advance(p))
  }

  /** n commands of p in a row. */
  ghost function Advances(s: State, p: nat, n: nat): Option<State> {
    Iterate(Advancing(p), s, n)
  }

  /** With p at this point and this gate for its account, all else as in s. */
  function WithAccount(s: State, p: nat, at: Point, g: Gate): State
    requires p in s.calls
  {
    Move(s, p, at).(accounts := s.accounts[s.calls[p].email := g])
  }

  function WithProject(s: State, p: nat, at: Point, g: Gate): State
    requires p in s.calls
  {
    Move(s, p, at).(projects := s.projects[s.calls[p].project := g])
  }

  lemma SlotTurnIs(s: State, p: nat, g: Gate)
    requires p in s.calls && p in g.acquirers
    ensures var h := Turned(CONCURRENCY_LIMIT, s.now, g, p);
            Advancing(p)(WithAccount(s, p, SlotGate, g))
            == Some(WithAccount(s, p, After(g, h, p, SlotGate, Between, Over(TooMany)), h))
  {
    var c, h := s.calls[p], Turned(CONCURRENCY_LIMIT, s.now, g, p);
    Overwritten(s.accounts, c.email, g, h);
    Overwritten(s.calls, p, c.(at := SlotGate), c.(at := After(g, h, p, SlotGate, Between, Over(TooMany))));
  }

  lemma MarkTurnIs(s: State, p: nat, g: Gate)
    requires p in s.calls && p in g.acquirers
    ensures var h := Turned(1, s.now, g, p);
            Advancing(p)(WithProject(s, p, MarkGate, g))
            == Some(WithProject(s, p, After(g, h, p, MarkGate, HandingOver, GivingBack), h))
  {
    var c, h := s.calls[p], Turned(1, s.now, g, p);
    Overwritten(s.projects, c.project, g, h);
    Overwritten(s.calls, p, c.(at := MarkGate), c.(at := After(g, h, p, MarkGate, HandingOver, GivingBack)));
  }

  /** What f does for a call inside a gate is one turn, and where the call then stands. */
  ghost predicate DrivesGate<T(!new)>(f: T -> Option<T>, at: Gate -> T, past: Gate -> T, refused: Gate -> T,
                                      limit: int, now: int, p: nat)
  {
    forall g: Gate {:trigger f(at(g))} | p in g.acquirers ::
      var h := Turned(limit, now, g, p);
      f(at(g)) == Some(if p in h.acquirers then at(h) else if g.acquirers[p].Expiring? then past(h) else refused(h))
  }

  lemma {:induction false} InsideGate<T(!new)>(f: T -> Option<T>, at: Gate -> T, past: Gate -> T, refused: Gate -> T,
                                               limit: int, now: int, g: Gate, p: nat, n: nat)
    requires DrivesGate(f, at, past, refused, limit, now, p) && Inside(limit, now, g, p, n + 1)
    ensures Iterate(f, at(g), n) == Some(at(Turns(limit, now, g, p, n)))
  {
    if n > 0 {
      InsideGate(f, at, past, refused, limit, now, g, p, n - 1);
      assert p in Turns(limit, now, g, p, n - 1).acquirers && p in Turns(limit, now, g, p, n).acquirers;
    }
  }

  lemma LastTurn<T(!new)>(f: T -> Option<T>, at: Gate -> T, past: Gate -> T, refused: Gate -> T,
                          limit: int, now: int, g: Gate, p: nat, n: nat)
    requires DrivesGate(f, at, past, refused, limit, now, p) && n > 0 && Inside(limit, now, g, p, n)
    requires p !in Turns(limit, now, g, p, n).acquirers
    ensures p in Turns(limit, now, g, p, n - 1).acquirers
    ensures var left := Turns(limit, now, g, p, n);
            f(at(Turns(limit, now, g, p, n - 1)))
            == Some(if Turns(limit, now, g, p, n - 1).acquirers[p].Expiring? then past(left) else refused(left))
  {
    assert p in Turns(limit, now, g, p, n - 1).acquirers;
  }

  lemma OnceMore<T>(f: T -> Option<T>, x: T, n: nat, y: T, z: Option<T>)
    requires n > 0 && Iterate(f, x, n - 1) == Some(y) && f(y) == z
    ensures Iterate(f, x, n) == z
  {
  }

  /** Through a gate, from the entry on. */
  lemma ThroughGate<T(!new)>(f: T -> Option<T>, at: Gate -> T, past: Gate -> T, refused: Gate -> T,
                             limit: int, now: int, g: Gate, p: nat, task: string) returns (n: nat, ok: bool)
    requires DrivesGate(f, at, past, refused, limit, now, p) && p !in g.acquirers
    ensures ok == HasRoom(g.slots, now, limit, task)
    ensures var left := Gate(Acquired(g.slots, now, limit, task), g.acquirers);
            Iterate(f, at(Entered(g, now, p, task)), n) == Some(if ok then past(left) else refused(left))
  {
    n := LoneTurns(limit, now, g, p, task);
    ok := HasRoom(g.slots, now, limit, task);
    var in_ := Entered(g, now, p, task);
    OutOfGate(f, at, past, refused, limit, now, in_, p, n, ok, Gate(Acquired(g.slots, now, limit, task), g.acquirers));
  }

  lemma OutOfGate<T(!new)>(f: T -> Option<T>, at: Gate -> T, past: Gate -> T, refused: Gate -> T,
                           limit: int, now: int, g: Gate, p: nat, n: nat, ok: bool, left: Gate)
    requires DrivesGate(f, at, past, refused, limit, now, p) && n > 0 && Inside(limit, now, g, p, n)
    requires Turns(limit, now, g, p, n) == left && p !in left.acquirers
    requires p in Turns(limit, now, g, p, n - 1).acquirers ==> (Turns(limit, now, g, p, n - 1).acquirers[p].Expiring? <==> ok)
    ensures Iterate(f, at(g), n) == Some(if ok then past(left) else refused(left))
  {
    InsideGate(f, at, past, refused, limit, now, g, p, n - 1);
    LastTurn(f, at, past, refused, limit, now, g, p, n);
    OnceMore(f, at(g), n, at(Turns(limit, now, g, p, n - 1)), Some(if ok then past(left) else refused(left)));
  }

  lemma SlotGateDriven(s: State, p: nat)
    requires p in s.calls
    ensures DrivesGate(Advancing(p), g => WithAccount(s, p, SlotGate, g), g => WithAccount(s, p, Between, g),
                       g => WithAccount(s, p, Over(TooMany), g), CONCURRENCY_LIMIT, s.now, p)
  {
    forall g: Gate | p in g.acquirers
      ensures var h := Turned(CONCURRENCY_LIMIT, s.now, g, p);
              Advancing(p)(WithAccount(s, p, SlotGate, g))
              == Some(WithAccount(s, p, After(g, h, p, SlotGate, Between, Over(TooMany)), h))
    {
      SlotTurnIs(s, p, g);
    }
  }

  lemma MarkGateDriven(s: State, p: nat)
    requires p in s.calls
    ensures DrivesGate(Advancing(p), g => WithProject(s, p, MarkGate, g), g => WithProject(s, p, HandingOver, g),
                       g => WithProject(s, p, GivingBack, g), 1, s.now, p)
  {
    forall g: Gate | p in g.acquirers
      ensures var h := Turned(1, s.now, g, p);
              Advancing(p)(WithProject(s, p, MarkGate, g))
              == Some(WithProject(s, p, After(g, h, p, MarkGate, HandingOver, GivingBack), h))
    {
      MarkTurnIs(s, p, g);
    }
  }

  lemma ThroughSlotGate(s: State, p: nat) returns (n: nat)
    requires p in s.calls && p !in GateAt(s.accounts, s.calls[p].email).acquirers
    ensures var c, g := s.calls[p], GateAt(s.accounts, s.calls[p].email);
            Advances(WithAccount(s, p, SlotGate, Entered(g, s.now, p, c.task)), p, n)
            == Some(WithAccount(s, p, if HasRoom(g.slots, s.now, CONCURRENCY_LIMIT, c.task) then Between else Over(TooMany),
                                Gate(Acquired(g.slots, s.now, CONCURRENCY_LIMIT, c.task), g.acquirers)))
  {
    var c, g := s.calls[p], GateAt(s.accounts, s.calls[p].email);
    SlotGateDriven(s, p);
    var ok;
    n, ok := ThroughGate(Advancing(p), g => WithAccount(s, p, SlotGate, g), g => WithAccount(s, p, Between, g),
                     g => WithAccount(s, p, Over(TooMany), g), CONCURRENCY_LIMIT, s.now, g, p, c.task);
  }

  lemma ThroughMarkGate(s: State, p: nat) returns (n: nat)
    requires p in s.calls && p !in GateAt(s.projects, s.calls[p].project).acquirers
    ensures var c, g := s.calls[p], GateAt(s.projects, s.calls[p].project);
            Advances(WithProject(s, p, MarkGate, Entered(g, s.now, p, c.task)), p, n)
            == Some(WithProject(s, p, if HasRoom(g.slots, s.now, 1, c.task) then HandingOver else GivingBack,
                                Gate(Acquired(g.slots, s.now, 1, c.task), g.acquirers)))
  {
    var c, g := s.calls[p], GateAt(s.projects, s.calls[p].project);
    MarkGateDriven(s, p);
    var ok;
    n, ok := ThroughGate(Advancing(p), g => WithProject(s, p, MarkGate, g), g => WithProject(s, p, HandingOver, g),
                     g => WithProject(s, p, GivingBack, g), 1, s.now, g, p, c.task);
  }

  /** The account part of a call: taken if the job is a heavy one with an e-mail. */
  ghost function SlotDone(s: State, p: nat): State
    requires p in s.calls
  {
    var c, g := s.calls[p], GateAt(s.accounts, s.calls[p].email);
    if c.function_ !in HEAVY_JOBS || c.email == "" then Move(s, p, Between)
    else WithAccount(s, p, if HasRoom(g.slots, s.now, CONCURRENCY_LIMIT, c.task) then Between else Over(TooMany),
                     Gate(Acquired(g.slots, s.now, CONCURRENCY_LIMIT, c.task), g.acquirers))
  }

  lemma LoneSlot(s: State, p: nat) returns (n: nat)
    requires p in s.calls && s.calls[p].at == Start && p !in GateAt(s.accounts, s.calls[p].email).acquirers
    ensures Advances(s, p, n) == Some(SlotDone(s, p))
  {
    var c, g := s.calls[p], GateAt(s.accounts, s.calls[p].email);
    IterateOnce(Advancing(p), s);
    if !TakesSlot(c) { return 1; }
    var k := ThroughSlotGate(s, p);
    IterateAdd(Advancing(p), s, 1, WithAccount(s, p, SlotGate, Entered(g, s.now, p, c.task)), k);
    n := 1 + k;
  }

  /** The project part: taken if the job writes the master and has an e-mail and a project.
      A refusal goes on to give the account slot back. */
  ghost function MarkDone(s: State, p: nat): State
    requires p in s.calls
  {
    var c, g := s.calls[p], GateAt(s.projects, s.calls[p].project);
    if c.function_ !in MASTER_WRITE_JOBS || c.email == "" || c.project == "" then Move(s, p, HandingOver)
    else WithProject(s, p, if HasRoom(g.slots, s.now, 1, c.task) then HandingOver else GivingBack,
                     Gate(Acquired(g.slots, s.now, 1, c.task), g.acquirers))
  }

  lemma LoneMark(s: State, p: nat) returns (n: nat)
    requires p in s.calls && s.calls[p].at == Between && p !in GateAt(s.projects, s.calls[p].project).acquirers
    ensures Advances(s, p, n) == Some(MarkDone(s, p))
  {
    var c, g := s.calls[p], GateAt(s.projects, s.calls[p].project);
    IterateOnce(Advancing(p), s);
    if !TakesMark(c) { return 1; }
    var k := ThroughMarkGate(s, p);
    IterateAdd(Advancing(p), s, 1, WithProject(s, p, MarkGate, Entered(g, s.now, p, c.task)), k);
    n := 1 + k;
  }

  ghost function SlotGivenBack(s: State, p: nat): State
    requires p in s.calls
  {
    var c, a := s.calls[p], GateAt(s.accounts, s.calls[p].email);
    Move(s, p, Over(ProjectBusy)).(accounts := s.accounts[c.email := a.(slots := Remove(a.slots, s.now, c.task))])
  }

  lemma LoneReturn(s: State, p: nat)
    requires p in s.calls && s.calls[p].at == GivingBack
    ensures Advances(s, p, 1) == Some(SlotGivenBack(s, p))
  {
    IterateOnce(Advancing(p), s);
  }

  lemma ThenAdvances(s: State, p: nat, m: nat, t: State, n: nat)
    requires Advances(s, p, m) == Some(t)
    ensures Advances(s, p, m + n) == Advances(t, p, n)
  {
    IterateAdd(Advancing(p), s, m, t, n);
  }

  /** The verdict of a call that nobody interferes with, by whether the sets it finds have
      room. */
  function LoneVerdict(c: Call, slotFree: bool, markFree: bool): Point {
    if c.function_ in HEAVY_JOBS && c.email != "" && !slotFree then Over(TooMany)
    else if c.function_ in MASTER_WRITE_JOBS && c.email != "" && c.project != "" && !markFree then Over(ProjectBusy)
    else HandingOver
  }

  ghost function LoneAccount(c: Call, at: Point, account: ZSet, now: int): ZSet {
    var taken := if c.function_ in HEAVY_JOBS && c.email != "" then Acquired(account, now, CONCURRENCY_LIMIT, c.task) else account;
    if at == Over(ProjectBusy) then Remove(taken, now, c.task) else taken
  }

  ghost function LoneProject(c: Call, at: Point, mark: ZSet, now: int): ZSet {
    if c.function_ in MASTER_WRITE_JOBS && c.email != "" && c.project != "" && at != Over(TooMany)
    then Acquired(mark, now, 1, c.task) else mark
  }

  /** Where a call by itself ends. */
  ghost function LoneEnd(s: State, p: nat): State
    requires p in s.calls
  {
    var a := SlotDone(s, p);
    if a.calls[p].at != Between then a
    else
      var b := MarkDone(a, p);
      if b.calls[p].at == GivingBack then SlotGivenBack(b, p) else b
  }

  lemma SlotDoneMeans(s: State, p: nat)
    requires p in s.calls
    ensures var c, a := s.calls[p], SlotDone(s, p); var z := GateAt(s.accounts, c.email).slots;
            && p in a.calls && a.projects == s.projects && a.now == s.now
            && a.calls[p] == c.(at := if c.function_ in HEAVY_JOBS && c.email != ""
                                         && !HasRoom(z, s.now, CONCURRENCY_LIMIT, c.task) then Over(TooMany) else Between)
            && GateAt(a.accounts, c.email).slots ==
                 (if c.function_ in HEAVY_JOBS && c.email != "" then Acquired(z, s.now, CONCURRENCY_LIMIT, c.task) else z)
            && forall e | e != c.email :: GateAt(a.accounts, e) == GateAt(s.accounts, e)
  {
  }

  lemma MarkDoneMeans(s: State, p: nat)
    requires p in s.calls
    ensures var c, b := s.calls[p], MarkDone(s, p); var y := GateAt(s.projects, c.project).slots;
            var takes := c.function_ in MASTER_WRITE_JOBS && c.email != "" && c.project != "";
            && p in b.calls && b.accounts == s.accounts && b.now == s.now
            && b.calls[p] == c.(at := if takes && !HasRoom(y, s.now, 1, c.task) then GivingBack else HandingOver)
            && GateAt(b.projects, c.project).slots == (if takes then Acquired(y, s.now, 1, c.task) else y)
            && forall k | k != c.project :: GateAt(b.projects, k) == GateAt(s.projects, k)
  {
  }

  lemma LoneEndMeans(s: State, p: nat)
    requires p in s.calls
    ensures var c, t := s.calls[p], LoneEnd(s, p);
            var z, y := GateAt(s.accounts, c.email).slots, GateAt(s.projects, c.project).slots;
            && p in t.calls
            && t.calls[p].at == LoneVerdict(c, HasRoom(z, s.now, CONCURRENCY_LIMIT, c.task), HasRoom(y, s.now, 1, c.task))
            && GateAt(t.accounts, c.email).slots == LoneAccount(c, t.calls[p].at, z, s.now)
            && GateAt(t.projects, c.project).slots == LoneProject(c, t.calls[p].at, y, s.now)
            && (forall e | e != c.email :: GateAt(t.accounts, e) == GateAt(s.accounts, e))
            && (forall k | k != c.project :: GateAt(t.projects, k) == GateAt(s.projects, k))
  {
    var c, a := s.calls[p], SlotDone(s, p);
    SlotDoneMeans(s, p);
    if a.calls[p].at == Between {
      var b := MarkDone(a, p);
      MarkDoneMeans(a, p);
      if b.calls[p].at == GivingBack { GivenBackMeans(b, p); }
    }
  }

  lemma GivenBackMeans(s: State, p: nat)
    requires p in s.calls
    ensures var c, t := s.calls[p], SlotGivenBack(s, p);
            && p in t.calls && t.projects == s.projects && t.calls[p] == c.(at := Over(ProjectBusy))
            && GateAt(t.accounts, c.email).slots == Remove(GateAt(s.accounts, c.email).slots, s.now, c.task)
            && forall e | e != c.email :: GateAt(t.accounts, e) == GateAt(s.accounts, e)
  {
  }

  lemma MarkPath(s: State, p: nat) returns (n: nat)
    requires p in s.calls && s.calls[p].at == Between && p !in GateAt(s.projects, s.calls[p].project).acquirers
    ensures var b := MarkDone(s, p);
            p in b.calls && Advances(s, p, n) == Some(if b.calls[p].at == GivingBack then SlotGivenBack(b, p) else b)
  {
    MarkDoneMeans(s, p);
    n := LoneMark(s, p);
    var b := MarkDone(s, p);
    if b.calls[p].at == GivingBack {
      LoneReturn(b, p);
      ThenAdvances(s, p, n, b, 1);
      n := n + 1;
    }
  }

  lemma LonePath(s: State, p: nat) returns (n: nat)
    requires p in s.calls && s.calls[p].at == Start && SlotsSeated(s) && MarksSeated(s)
    ensures Advances(s, p, n) == Some(LoneEnd(s, p))
  {
    NotSeated(s, p, s.calls[p].email, s.calls[p].project);
    SlotDoneMeans(s, p);
    n := LoneSlot(s, p);
    var a := SlotDone(s, p);
    if a.calls[p].at == Between {
      var m := MarkPath(a, p);
      ThenAdvances(s, p, n, a, m);
      n := n + m;
    }
  }

  /** Command by command and without interference, a call comes to the verdict and leaves the
      two sets that `Gates.Enqueue` does, and no other set moves. */
  lemma LoneCall(s: State, p: nat) returns (n: nat, t: State)
    requires p in s.calls && s.calls[p].at == Start && SlotsSeated(s) && MarksSeated(s)
    ensures Advances(s, p, n) == Some(t) && p in t.calls
    ensures var c := s.calls[p];
            var z, y := GateAt(s.accounts, c.email).slots, GateAt(s.projects, c.project).slots;
            && t.calls[p].at == LoneVerdict(c, HasRoom(z, s.now, CONCURRENCY_LIMIT, c.task), HasRoom(y, s.now, 1, c.task))
            && GateAt(t.accounts, c.email).slots == LoneAccount(c, t.calls[p].at, z, s.now)
            && GateAt(t.projects, c.project).slots == LoneProject(c, t.calls[p].at, y, s.now)
            && (forall e | e != c.email :: GateAt(t.accounts, e) == GateAt(s.accounts, e))
            && (forall k | k != c.project :: GateAt(t.projects, k) == GateAt(s.projects, k))
  {
    n := LonePath(s, p);
    t := LoneEnd(s, p);
    LoneEndMeans(s, p);
  }

  lemma NotSeated(s: State, p: nat, e: string, k: string)
    requires p in s.calls && s.calls[p].at == Start && SlotsSeated(s) && MarksSeated(s)
    ensures p !in GateAt(s.accounts, e).acquirers && p !in GateAt(s.projects, k).acquirers
  {
    if p in GateAt(s.accounts, e).acquirers { InSlotGate(s, p, e); }
    if p in GateAt(s.projects, k).acquirers { InMarkGate(s, p, k); }
  }

  /** A call that has begun and is not over can always send its next command or crash. */
  lemma EnabledExactlyWhen(s: State, step: Step)
    requires SlotsSeated(s) && MarksSeated(s)
    ensures Next(s, step).Some? <==>
            match step
            case Tick(_) => true
            case Begin(p, _, _, _, _) => p !in s.calls
            case Advance(p) =>
              p in s.calls &&
              (match s.calls[p].at
               case Start => true
               case SlotGate => p in GateAt(s.accounts, s.calls[p].email).acquirers
               case Between => true
               case MarkGate => p in GateAt(s.projects, s.calls[p].project).acquirers
               case GivingBack => true
               case _ => false)
            case HandOver(p, _) => p in s.calls && s.calls[p].at.HandingOver?
            case FreeSlot(_, _) => true
            case FreeMark(_, _) => true
            case Crash(p) => p in s.calls && !s.calls[p].at.Over? && !s.calls[p].at.Crashed?
    ensures step.Tick? ==> Next(s, step) == Some(s.(now := s.now + step.elapsed))
    ensures step.Begin? && step.p !in s.calls ==>
              Next(s, step) == Some(s.(calls := s.calls[step.p := Call(step.function_, step.task, step.email, step.project, Start)]))
    ensures step.Crash? && Next(s, step).Some? ==>
              Next(s, step).value.calls == s.calls[step.p := s.calls[step.p].(at := Crashed)]
    ensures step.HandOver? && Next(s, step).Some? ==>
              Next(s, step).value == Move(s, step.p, if step.ok then Over(Enqueued) else Over(QueueFailed))
  {
  }
}
