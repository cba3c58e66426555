/** `post_meeting_pipeline_job`: the job's main coroutine and the CPS merge task it
    spawns, interleaved at every await, with every way either of them can fail.
    Cancellation is not modelled. */
module PostMeeting {
  import opened Wrappers

  /** What may be raised. `GeminiError` is a subclass of `RuntimeError`; `OtherError` is
      every exception that is neither a ValueError nor a RuntimeError. */
  datatype Error = ValueError | RuntimeError | GeminiError | LockTimeout | OtherError

  /** Caught by `except (ValueError, RuntimeError)`. */
  predicate Downgrades(e: Error) {
    e.ValueError? || e.RuntimeError? || e.GeminiError?
  }

  datatype Task = Unstarted | Running | Returned | Raised(error: Error)

  predicate Finished(t: Task) {
    t.Returned? || t.Raised?
  }

  datatype PrdMode = PrdSaved | PrdError

  datatype Outcome = JobReturned(prd: PrdMode) | JobRaised(error: Error)

  /** Where the main coroutine stands. */
  datatype Point =
    | Tracking                        // _tracked_ctx, before the try block
    | Extracting
    | Locking                         // entering master_write_lock
    | PrdComputing                    // CPS task spawned, awaiting the PRD compute
    | Draining(error: Error)          // transient PRD failure: awaiting the CPS task, then re-raise
    | JoiningCps                      // await cps_task
    | PrdCommitting
    | Unlocking(failure: Option<Error>) // __aexit__ of the lock
    | Reporting                       // stage marker, cleanup trigger, payload
    | Persisting(outcome: Outcome)    // finally: token usage
    | FreeingSlot(outcome: Outcome)   // finally: concurrency slot and project marker
    | Exited(outcome: Outcome)

  datatype State = State(
    at: Point,
    cps: Task,
    locked: bool,
    prdCommit: bool,               // prd_commit is not None
    prdResult: bool,               // prd_result is not None
    prdError: Option<Error>,
    tracked: bool,                 // history: _tracked_ctx returned
    commitStarted: bool,           // history
    persisted: bool,
    slotFreed: bool)

  datatype Step =
    | TrackOk | TrackFail(error: Error)
    | ExtractOk | ExtractFail(error: Error)
    | LockOk | LockFail(error: Error)
    | PrdComputeOk | PrdComputeFail(error: Error)
    | CpsWrite | CpsReturn | CpsRaise(error: Error)
    | Drained
    | Joined
    | CommitOk | CommitFail(error: Error)
    | Unlock
    | Report
    | Persist
    | FreeSlot

  const START := State(Tracking, Unstarted, false, false, false, None, false, false, false, false)

  function Next(s: State, step: Step): Option<State> {
    match step
    case TrackOk =>
      if s.at.Tracking? then Some(s.(at := Extracting, tracked := true)) else None
    case TrackFail(e) =>
      // raised before the try block: no finally clause applies
      if s.at.Tracking? then Some(s.(at := Exited(JobRaised(e)))) else None
    case ExtractOk =>
      if s.at.Extracting? then Some(s.(at := Locking)) else None
    case ExtractFail(e) =>
      if s.at.Extracting? then Some(s.(at := Persisting(JobRaised(e)))) else None
    case LockOk =>
      if s.at.Locking? then Some(s.(at := PrdComputing, locked := true, cps := Running)) else None
    case LockFail(e) =>
      if s.at.Locking? then Some(s.(at := Persisting(JobRaised(e)))) else None
    case PrdComputeOk =>
      if s.at.PrdComputing? then Some(s.(at := JoiningCps, prdCommit := true)) else None
    case PrdComputeFail(e) =>
      if !s.at.PrdComputing? then None
      else if Downgrades(e) then Some(s.(at := JoiningCps, prdError := Some(e)))
      else Some(s.(at := Draining(e)))
    case CpsWrite => if s.cps.Running? then Some(s) else None
    case CpsReturn => if s.cps.Running? then Some(s.(cps := Returned)) else None
    case CpsRaise(e) => if s.cps.Running? then Some(s.(cps := Raised(e))) else None
    case Drained =>
      // the CPS task's own exception is suppressed
      if s.at.Draining? && Finished(s.cps) then Some(s.(at := Unlocking(Some(s.at.error)))) else None
    case Joined =>
      if !s.at.JoiningCps? then None
      else (match s.cps
            case Returned =>
              if s.prdCommit then Some(s.(at := PrdCommitting, commitStarted := true))
              else Some(s.(at := Unlocking(None)))
            case Raised(e) => Some(s.(at := Unlocking(Some(e))))
            case _ => None)
    case CommitOk =>
      if s.at.PrdCommitting? then Some(s.(at := Unlocking(None), prdResult := true)) else None
    case CommitFail(e) =>
      if !s.at.PrdCommitting? then None
      else if Downgrades(e) then Some(s.(at := Unlocking(None), prdError := Some(e)))
      else Some(s.(at := Unlocking(Some(e))))
    case Unlock =>
      if !s.at.Unlocking? then None
      else if s.at.failure.Some? then Some(s.(at := Persisting(JobRaised(s.at.failure.value)), locked := false))
      else Some(s.(at := Reporting, locked := false))
    case Report =>
      if !s.at.Reporting? then None
      else if s.prdError.Some? || !s.prdResult then Some(s.(at := Persisting(JobReturned(PrdError))))
      else Some(s.(at := Persisting(JobReturned(PrdSaved))))
    case Persist =>
      if s.at.Persisting? then Some(s.(at := FreeingSlot(s.at.outcome), persisted := true)) else None
    case FreeSlot =>
      if s.at.FreeingSlot? then Some(s.(at := Exited(s.at.outcome), slotFreed := true)) else None
  }

  ghost predicate IsRun(steps: seq<Step>, states: seq<State>) {
    && |states| == |steps| + 1
    && states[0] == START
    && forall i {:trigger Next(states[i], steps[i])} | 0 <= i < |steps| :: Next(states[i], steps[i]) == Some(states[i + 1])
  }

  /** Between taking and giving back the lock. */
  predicate InLock(p: Point) {
    p.PrdComputing? || p.Draining? || p.JoiningCps? || p.PrdCommitting? || p.Unlocking?
  }

  ghost predicate Inv(s: State) {
    && s.locked == InLock(s.at)
    && (s.cps.Running? ==> s.at.PrdComputing? || s.at.Draining? || s.at.JoiningCps?)
    && (s.at.PrdComputing? || s.at.Draining? || s.at.JoiningCps? ==> !s.cps.Unstarted?)
    && (s.commitStarted ==> s.cps.Returned? && s.prdCommit)
    && (s.at.PrdCommitting? ==> s.commitStarted && s.prdError.None? && !s.prdResult)
    && (s.at.PrdComputing? ==> s.prdError.None? && !s.prdCommit && !s.prdResult)
    && (s.prdResult ==> s.commitStarted && s.prdError.None?)
    && (s.prdError.Some? ==> Downgrades(s.prdError.value))
    && (s.at.Draining? ==> !Downgrades(s.at.error) && !s.commitStarted)
    && (s.at.JoiningCps? ==> !s.commitStarted && !s.prdResult && s.prdCommit == s.prdError.None?)
    && (s.at.Unlocking? && s.at.failure.None? ==> s.cps.Returned? && s.prdResult == s.prdError.None?)
    && (s.at.Reporting? ==> s.cps.Returned? && s.prdResult == s.prdError.None?)
    && (s.at.Tracking? ==> !s.tracked)
    && (!s.at.Tracking? && !s.at.Exited? ==> s.tracked)
    && (s.persisted == (s.tracked && (s.at.FreeingSlot? || s.at.Exited?)))
    && (s.slotFreed == (s.tracked && s.at.Exited?))
    && (s.at.Tracking? || s.at.Extracting? || s.at.Locking? ==> s.cps.Unstarted?)
    && (s.cps.Unstarted? ==> !s.commitStarted && s.prdError.None? && !s.prdCommit)
    && (s.at.Exited? && !s.tracked ==> s.cps.Unstarted? && s.at.outcome.JobRaised?)
    && OutcomeInv(s)
  }

  /** Once the outcome is settled it says what happened. */
  ghost predicate OutcomeInv(s: State) {
    (s.at.Persisting? || s.at.FreeingSlot? || s.at.Exited?) && s.at.outcome.JobReturned? ==>
      && s.cps.Returned?
      && (s.at.outcome.prd.PrdSaved? <==> s.prdResult)
      && (s.at.outcome.prd.PrdError? <==> s.prdError.Some?)
  }

  lemma StepKeepsInv(s: State, step: Step, t: State)
    requires Inv(s) && Next(s, step) == Some(t)
    ensures Inv(t)
  {
  }

  lemma {:induction false} RunKeepsInv(steps: seq<Step>, states: seq<State>, i: nat)
    requires IsRun(steps, states) && i < |states|
    ensures Inv(states[i])
  {
    if i > 0 {
      RunKeepsInv(steps, states, i - 1);
      StepKeepsInv(states[i - 1], steps[i - 1], states[i]);
    }
  }

  /** In every interleaving the PRD commit is entered only after the CPS merge returned,
      and it runs, like every CPS write, while the lock is held. */
  lemma CommitAfterCpsUnderLock(steps: seq<Step>, states: seq<State>, i: nat)
    requires IsRun(steps, states) && i < |states|
    ensures states[i].at.PrdCommitting? ==> states[i].cps.Returned? && states[i].locked
    ensures states[i].commitStarted ==> states[i].cps.Returned?
    ensures i < |steps| && steps[i].CpsWrite? ==> states[i].locked && !states[i].commitStarted
  {
    RunKeepsInv(steps, states, i);
    if i < |steps| && steps[i].CpsWrite? {
      assert Next(states[i], steps[i]) == Some(states[i + 1]);
    }
  }

  /** No CPS write is pending once the lock has been given back, however the section ended. */
  lemma NoWriteOutlivesLock(steps: seq<Step>, states: seq<State>, i: nat)
    requires IsRun(steps, states) && i < |states|
    ensures states[i].cps.Running? ==> states[i].locked
    ensures i < |steps| && steps[i].Unlock? ==> Finished(states[i].cps) && !states[i + 1].locked
    ensures states[i].at.Exited? ==> !states[i].locked && !states[i].cps.Running?
  {
    RunKeepsInv(steps, states, i);
    if i < |steps| && steps[i].Unlock? {
      assert Next(states[i], steps[i]) == Some(states[i + 1]);
      UnlockFinds(steps, states, i);
    }
  }

  lemma SpawnedInLock(s: State, step: Step, t: State)
    requires Inv(s) && Next(s, step) == Some(t) && InLock(t.at) && (InLock(s.at) ==> !s.cps.Unstarted?)
    ensures !t.cps.Unstarted?
    ensures t.at.Unlocking? ==> Finished(t.cps)
  {
  }

  lemma {:induction false} UnlockFinds(steps: seq<Step>, states: seq<State>, i: nat)
    requires IsRun(steps, states) && i < |states| && InLock(states[i].at)
    ensures !states[i].cps.Unstarted?
    ensures states[i].at.Unlocking? ==> Finished(states[i].cps)
  {
    if i > 0 {
      if InLock(states[i - 1].at) { UnlockFinds(steps, states, i - 1); }
      RunKeepsInv(steps, states, i - 1);
      SpawnedInLock(states[i - 1], steps[i - 1], states[i]);
    }
  }

  /** The job's exit has recorded the tokens and freed the slot exactly when
      `_tracked_ctx` had returned: a failure there is raised before the try block, and
      leaves the slot to the stale-slot purge. */
  lemma CleanUpRuns(steps: seq<Step>, states: seq<State>, i: nat)
    requires IsRun(steps, states) && i < |states| && states[i].at.Exited?
    ensures states[i].persisted == states[i].slotFreed == (steps[0] == TrackOk)
  {
    RunKeepsInv(steps, states, i);
    TrackedFirst(steps, states, i);
  }

  lemma TrackStep(s: State, step: Step, t: State)
    requires Inv(s) && Next(s, step) == Some(t)
    ensures !t.at.Tracking?
    ensures if s.at.Tracking? then t.tracked <==> s.tracked || step == TrackOk else t.tracked == s.tracked
  {
  }

  lemma {:induction false} TrackedFirst(steps: seq<Step>, states: seq<State>, i: nat)
    requires IsRun(steps, states) && i < |states|
    ensures i == 0 ==> !states[i].tracked
    ensures i > 0 ==> (states[i].tracked <==> steps[0] == TrackOk) && !states[i].at.Tracking?
  {
    if i > 0 {
      TrackedFirst(steps, states, i - 1);
      RunKeepsInv(steps, states, i - 1);
      TrackStep(states[i - 1], steps[i - 1], states[i]);
    }
  }

  /** What the caller is told. A job that returns has merged the CPS; it reports a saved
      PRD exactly when the PRD commit returned, and a PRD error exactly when the compute
      or the commit raised a ValueError or a RuntimeError. */
  lemma ReturnedMeans(steps: seq<Step>, states: seq<State>, i: nat)
    requires IsRun(steps, states) && i < |states|
    requires states[i].at.Exited? && states[i].at.outcome.JobReturned?
    ensures states[i].cps.Returned?
    ensures states[i].at.outcome.prd.PrdSaved? <==> PrdCommitReturned(steps, i)
    ensures states[i].at.outcome.prd.PrdError? <==> PrdFailed(steps, i)
  {
    RunKeepsInv(steps, states, i);
    PrdHistory(steps, states, i);
  }

  /** A step by which the PRD compute or its commit raised something that is caught. */
  predicate FailsPrd(step: Step) {
    (step.PrdComputeFail? || step.CommitFail?) && step.error in {ValueError, RuntimeError, GeminiError}
  }

  ghost predicate PrdCommitReturned(steps: seq<Step>, i: nat)
    requires i <= |steps|
  {
    exists n :: 0 <= n < i && steps[n] == CommitOk
  }

  ghost predicate PrdFailed(steps: seq<Step>, i: nat)
    requires i <= |steps|
  {
    exists n :: 0 <= n < i && FailsPrd(steps[n])
  }

  lemma {:induction false} PrdHistory(steps: seq<Step>, states: seq<State>, i: nat)
    requires IsRun(steps, states) && i < |states|
    ensures states[i].prdResult <==> PrdCommitReturned(steps, i)
    ensures states[i].prdError.Some? <==> PrdFailed(steps, i)
  {
    if i > 0 {
      PrdHistory(steps, states, i - 1);
      RunKeepsInv(steps, states, i - 1);
      PrdStep(states[i - 1], steps[i - 1], states[i]);
      assert steps[i - 1] == CommitOk ==> PrdCommitReturned(steps, i);
      assert FailsPrd(steps[i - 1]) ==> PrdFailed(steps, i);
    }
  }

  lemma PrdStep(s: State, step: Step, t: State)
    requires Inv(s) && Next(s, step) == Some(t)
    ensures t.prdResult <==> s.prdResult || step == CommitOk
    ensures t.prdError.Some? <==> s.prdError.Some? || FailsPrd(step)
  {
  }

  // ---- How a job fails ----------------------------------------------------------------

  /** What a step raises that nothing on the main path catches. */
  function Uncaught(step: Step): Option<Error> {
    match step
    case TrackFail(e) => Some(e)
    case ExtractFail(e) => Some(e)
    case LockFail(e) => Some(e)
    case PrdComputeFail(e) => if e in {LockTimeout, OtherError} then Some(e) else None
    case CommitFail(e) => if e in {LockTimeout, OtherError} then Some(e) else None
    case _ => None
  }

  /** The latest of those among the first n steps. */
  function Fatal(steps: seq<Step>, n: nat): Option<Error>
    requires n <= |steps|
  {
    if n == 0 then None
    else if Uncaught(steps[n - 1]).Some? then Uncaught(steps[n - 1])
    else Fatal(steps, n - 1)
  }

  /** What a job ends in, once its CPS task is over: an uncaught failure of the main path
      comes first, then one of the CPS task. */
  function Verdict(fatal: Option<Error>, cps: Task): Option<Error> {
    if fatal.Some? then fatal else if cps.Raised? then Some(cps.error) else None
  }

  /** Where the main coroutine stands agrees with what has been raised so far. */
  ghost predicate Fated(s: State, fatal: Option<Error>) {
    match s.at
    case Draining(e) => fatal == Some(e)
    case Unlocking(failure) => Finished(s.cps) && failure == Verdict(fatal, s.cps)
    case Persisting(outcome) => Ends(s, outcome, fatal)
    case FreeingSlot(outcome) => Ends(s, outcome, fatal)
    case Exited(outcome) => Ends(s, outcome, fatal)
    case _ => fatal == None
  }

  ghost predicate Ends(s: State, outcome: Outcome, fatal: Option<Error>) {
    && !s.cps.Running?
    && match outcome
       case JobRaised(e) => Verdict(fatal, s.cps) == Some(e)
       case JobReturned(_) => fatal == None && s.cps.Returned?
  }

  lemma StepKeepsFate(s: State, step: Step, t: State, fatal: Option<Error>)
    requires Inv(s) && Next(s, step) == Some(t) && Fated(s, fatal)
    ensures Fated(t, if Uncaught(step).Some? then Uncaught(step) else fatal)
  {
  }

  lemma {:induction false} RunIsFated(steps: seq<Step>, states: seq<State>, i: nat)
    requires IsRun(steps, states) && i < |states|
    ensures Fated(states[i], Fatal(steps, i))
  {
    if i > 0 {
      RunIsFated(steps, states, i - 1);
      RunKeepsInv(steps, states, i - 1);
      StepKeepsFate(states[i - 1], steps[i - 1], states[i], Fatal(steps, i - 1));
    }
  }

  /** A job fails exactly with what was raised and not caught: the failure of the main path
      if there was one, else that of the CPS task. It returns exactly when there was
      neither. */
  lemma RaisedMeans(steps: seq<Step>, states: seq<State>, i: nat)
    requires IsRun(steps, states) && i < |states| && states[i].at.Exited?
    ensures forall e :: states[i].at.outcome == JobRaised(e) <==> Verdict(Fatal(steps, i), states[i].cps) == Some(e)
    ensures states[i].at.outcome.JobReturned? <==> Fatal(steps, i) == None && states[i].cps.Returned?
  {
    RunIsFated(steps, states, i);
  }

  /** The main path raises at most once: past the step, nothing else is fatal. */
  ghost predicate Past(s: State) {
    s.at.Draining? || s.at.Persisting? || s.at.FreeingSlot? || s.at.Exited?
    || (s.at.Unlocking? && s.at.failure.Some?)
  }

  lemma StaysPast(s: State, step: Step, t: State)
    requires Past(s) && Next(s, step) == Some(t)
    ensures Past(t) && Uncaught(step).None?
  {
  }

  /** The PRD has failed, was caught, and will be reported if the CPS merge succeeds. */
  ghost predicate Downgraded(s: State, e: Error) {
    && s.prdError == Some(e)
    && ((s.at.JoiningCps? && !s.prdCommit)
        || s.at.Unlocking? || s.at.Reporting? || s.at.Persisting? || s.at.FreeingSlot? || s.at.Exited?)
  }

  lemma StaysDowngraded(s: State, step: Step, t: State, e: Error)
    requires Inv(s) && Downgraded(s, e) && Next(s, step) == Some(t)
    ensures Downgraded(t, e) && Uncaught(step).None?
  {
  }

  /** A failure of the PRD compute or of its commit. */
  predicate IsPrdFailure(step: Step) {
    step.PrdComputeFail? || step.CommitFail?
  }

  lemma PrdRaises(s: State, step: Step, t: State)
    requires Inv(s) && IsPrdFailure(step) && Next(s, step) == Some(t)
    ensures !FailsPrd(step) ==> Past(t)
    ensures FailsPrd(step) ==> Downgraded(t, step.error)
    ensures forall fatal :: Fated(s, fatal) ==> fatal == None
    ensures step.CommitFail? ==> t.cps.Returned?
  {
  }

  lemma AtPrdFailure(steps: seq<Step>, states: seq<State>, i: nat)
    requires IsRun(steps, states) && i < |steps| && IsPrdFailure(steps[i])
    ensures !FailsPrd(steps[i]) ==> Past(states[i + 1]) && Fatal(steps, i + 1) == Some(steps[i].error)
    ensures FailsPrd(steps[i]) ==> Downgraded(states[i + 1], steps[i].error) && Fatal(steps, i + 1) == None
  {
    RunKeepsInv(steps, states, i);
    RunIsFated(steps, states, i);
    PrdRaises(states[i], steps[i], states[i + 1]);
  }

  lemma {:induction false} FatalUnchanged(steps: seq<Step>, k: nat, n: nat)
    requires k <= n <= |steps| && forall m | k <= m < n :: Uncaught(steps[m]).None?
    ensures Fatal(steps, n) == Fatal(steps, k)
  {
    if k < n { FatalUnchanged(steps, k, n - 1); }
  }

  lemma PastStep(steps: seq<Step>, states: seq<State>, m: nat)
    requires IsRun(steps, states) && m < |steps| && Past(states[m])
    ensures Past(states[m + 1]) && Uncaught(steps[m]).None?
  {
    StaysPast(states[m], steps[m], states[m + 1]);
  }

  lemma {:induction false} StaysPastFor(steps: seq<Step>, states: seq<State>, k: nat, n: nat)
    requires IsRun(steps, states) && k <= n < |states| && Past(states[k])
    ensures Past(states[n])
  {
    if k < n {
      StaysPastFor(steps, states, k, n - 1);
      PastStep(steps, states, n - 1);
    }
  }

  lemma QuietPast(steps: seq<Step>, states: seq<State>, k: nat, m: nat)
    requires IsRun(steps, states) && k <= m < |steps| && Past(states[k])
    ensures Uncaught(steps[m]).None?
  {
    StaysPastFor(steps, states, k, m);
    PastStep(steps, states, m);
  }

  lemma FatalFixed(steps: seq<Step>, states: seq<State>, k: nat, n: nat)
    requires IsRun(steps, states) && k <= n < |states| && Past(states[k])
    ensures Fatal(steps, n) == Fatal(steps, k)
  {
    forall m | k <= m < n ensures Uncaught(steps[m]).None? { QuietPast(steps, states, k, m); }
    FatalUnchanged(steps, k, n);
  }

  lemma FatalStands(steps: seq<Step>, states: seq<State>, i: nat, n: nat)
    requires IsRun(steps, states) && i < n < |states| && IsPrdFailure(steps[i]) && !FailsPrd(steps[i])
    ensures Fatal(steps, n) == Some(steps[i].error)
  {
    AtPrdFailure(steps, states, i);
    FatalFixed(steps, states, i + 1, n);
  }

  lemma DowngradedStep(steps: seq<Step>, states: seq<State>, m: nat, e: Error)
    requires IsRun(steps, states) && m < |steps| && Downgraded(states[m], e)
    ensures Downgraded(states[m + 1], e) && Uncaught(steps[m]).None?
  {
    RunKeepsInv(steps, states, m);
    StaysDowngraded(states[m], steps[m], states[m + 1], e);
  }

  lemma {:induction false} StaysDowngradedFor(steps: seq<Step>, states: seq<State>, k: nat, n: nat, e: Error)
    requires IsRun(steps, states) && k <= n < |states| && Downgraded(states[k], e)
    ensures Downgraded(states[n], e)
  {
    if k < n {
      StaysDowngradedFor(steps, states, k, n - 1, e);
      DowngradedStep(steps, states, n - 1, e);
    }
  }

  lemma AfterDowngrade(steps: seq<Step>, states: seq<State>, i: nat, n: nat)
    requires IsRun(steps, states) && i < n < |states| && FailsPrd(steps[i])
    ensures Downgraded(states[n], steps[i].error) && Fatal(steps, n) == None
  {
    AtPrdFailure(steps, states, i);
    var k, e := i + 1, steps[i].error;
    StaysDowngradedFor(steps, states, k, n, e);
    forall m | k <= m < n ensures Uncaught(steps[m]).None? {
      StaysDowngradedFor(steps, states, k, m, e);
      DowngradedStep(steps, states, m, e);
    }
    FatalUnchanged(steps, k, n);
  }

  lemma PrdFailureDecides(steps: seq<Step>, states: seq<State>, i: nat, n: nat)
    requires IsRun(steps, states) && i < n < |states| && IsPrdFailure(steps[i]) && states[n].at.Exited?
    ensures states[n].at.outcome ==
            if !FailsPrd(steps[i]) then JobRaised(steps[i].error)
            else if states[n].cps.Raised? then JobRaised(states[n].cps.error) else JobReturned(PrdError)
  {
    RaisedMeans(steps, states, n);
    if FailsPrd(steps[i]) {
      AfterDowngrade(steps, states, i, n);
      RunIsFated(steps, states, n);
      RunKeepsInv(steps, states, n);
    } else {
      FatalStands(steps, states, i, n);
    }
  }

  /** A ValueError or RuntimeError of the PRD compute, that of an LLM call included, never
      fails the job by itself: the job then fails only as its CPS task does, and otherwise
      returns and reports a PRD error. Anything else is passed on to the caller, for a
      retry, whatever becomes of the CPS merge. */
  lemma ComputeFailureDecides(steps: seq<Step>, states: seq<State>, i: nat, n: nat)
    requires IsRun(steps, states) && i < n < |states| && steps[i].PrdComputeFail? && states[n].at.Exited?
    ensures steps[i].error in {ValueError, RuntimeError, GeminiError} ==>
              states[n].at.outcome ==
              if states[n].cps.Raised? then JobRaised(states[n].cps.error) else JobReturned(PrdError)
    ensures steps[i].error in {LockTimeout, OtherError} ==> states[n].at.outcome == JobRaised(steps[i].error)
  {
    PrdFailureDecides(steps, states, i, n);
  }

  /** The same for the PRD commit, before which the CPS merge has returned: a ValueError or
      RuntimeError ends in a reported PRD error, anything else fails the job. */
  lemma CommitFailureDecides(steps: seq<Step>, states: seq<State>, i: nat, n: nat)
    requires IsRun(steps, states) && i < n < |states| && steps[i].CommitFail? && states[n].at.Exited?
    ensures steps[i].error in {ValueError, RuntimeError, GeminiError} ==> states[n].at.outcome == JobReturned(PrdError)
    ensures steps[i].error in {LockTimeout, OtherError} ==> states[n].at.outcome == JobRaised(steps[i].error)
  {
    PrdFailureDecides(steps, states, i, n);
    RunKeepsInv(steps, states, i);
    PrdRaises(states[i], steps[i], states[i + 1]);
    StaysReturned(steps, states, i + 1, n);
  }

  lemma StepKeepsReturned(s: State, step: Step, t: State)
    requires Inv(s) && s.cps.Returned? && Next(s, step) == Some(t)
    ensures t.cps.Returned?
  {
  }

  lemma {:induction false} StaysReturned(steps: seq<Step>, states: seq<State>, k: nat, n: nat)
    requires IsRun(steps, states) && k <= n < |states| && states[k].cps.Returned?
    ensures states[n].cps.Returned?
  {
    if k < n {
      StaysReturned(steps, states, k, n - 1);
      RunKeepsInv(steps, states, n - 1);
      StepKeepsReturned(states[n - 1], steps[n - 1], states[n]);
    }
  }

  /** Any LLM failure of the PRD stage, transient ones included, is a RuntimeError and so
      never fails a job whose CPS merge succeeds: the comment above the handler says
      otherwise, the handler does not. */
  lemma GeminiFailureIsDowngraded(steps: seq<Step>, states: seq<State>, i: nat)
    requires IsRun(steps, states) && i < |steps|
    requires steps[i] == PrdComputeFail(GeminiError)
    ensures states[i + 1].at == JoiningCps && states[i + 1].prdError == Some(GeminiError)
    ensures forall n | i < n < |states| && states[n].at.Exited? && states[n].cps.Returned? ::
              states[n].at.outcome == JobReturned(PrdError)
  {
    assert Next(states[i], steps[i]) == Some(states[i + 1]);
    forall n | i < n < |states| && states[n].at.Exited? && states[n].cps.Returned?
      ensures states[n].at.outcome == JobReturned(PrdError)
    {
      ComputeFailureDecides(steps, states, i, n);
    }
  }

  // ---- Every run can be finished, and finishes --------------------------------------

  /** The steps left to the main coroutine, plus one for a CPS task still running. */
  function Rank(s: State): nat {
    (match s.at
     case Tracking => 12 case Extracting => 11 case Locking => 10 case PrdComputing => 8
     case Draining(_) => 7 case JoiningCps => 7 case PrdCommitting => 6 case Unlocking(_) => 5
     case Reporting => 4 case Persisting(_) => 3 case FreeingSlot(_) => 2 case Exited(_) => 0)
    + if s.cps.Running? then 1 else 0
  }

  lemma SomeStepEnabled(s: State) returns (step: Step)
    requires Inv(s) && !s.at.Exited?
    ensures step != CpsWrite && Next(s, step).Some?
  {
    step :=
      match s.at
      case Tracking => TrackOk case Extracting => ExtractOk case Locking => LockOk
      case PrdComputing => PrdComputeOk
      case Draining(_) => if s.cps.Running? then CpsReturn else Drained
      case JoiningCps => if s.cps.Running? then CpsReturn else Joined
      case PrdCommitting => CommitOk case Unlocking(_) => Unlock case Reporting => Report
      case Persisting(_) => Persist case FreeingSlot(_) => FreeSlot case Exited(_) => CpsWrite;
  }

  lemma StepGoesOn(s: State, step: Step, t: State)
    requires Inv(s) && Next(s, step) == Some(t) && step != CpsWrite
    ensures Rank(t) < Rank(s)
  {
  }

  /** Outside `Exited` some step is always enabled, and every step but a CPS write brings
      the job closer to its exit: no interleaving gets stuck or goes on for ever. */
  lemma AlwaysReachesExit(steps: seq<Step>, states: seq<State>, i: nat)
    requires IsRun(steps, states) && i < |states|
    ensures !states[i].at.Exited? ==> exists step :: step != CpsWrite && Next(states[i], step).Some?
    ensures i < |steps| && steps[i] != CpsWrite ==> Rank(states[i + 1]) < Rank(states[i])
  {
    RunKeepsInv(steps, states, i);
    if !states[i].at.Exited? {
      var step := SomeStepEnabled(states[i]);
    }
    if i < |steps| && steps[i] != CpsWrite {
      StepGoesOn(states[i], steps[i], states[i + 1]);
    }
  }

  /** At every point either way a call can go is possible, with any error, and the CPS task
      may write, return or raise for as long as it runs; a wait for it ends when it does. */
  lemma EnabledExactlyWhen(s: State, step: Step)
    ensures Next(s, step).Some? <==>
            match step
            case TrackOk => s.at.Tracking? case TrackFail(_) => s.at.Tracking?
            case ExtractOk => s.at.Extracting? case ExtractFail(_) => s.at.Extracting?
            case LockOk => s.at.Locking? case LockFail(_) => s.at.Locking?
            case PrdComputeOk => s.at.PrdComputing? case PrdComputeFail(_) => s.at.PrdComputing?
            case CpsWrite => s.cps.Running? case CpsReturn => s.cps.Running? case CpsRaise(_) => s.cps.Running?
            case Drained => s.at.Draining? && Finished(s.cps)
            case Joined => s.at.JoiningCps? && Finished(s.cps)
            case CommitOk => s.at.PrdCommitting? case CommitFail(_) => s.at.PrdCommitting?
            case Unlock => s.at.Unlocking?
            case Report => s.at.Reporting?
            case Persist => s.at.Persisting?
            case FreeSlot => s.at.FreeingSlot?
  {
  }

  lemma LocksAfterEarly(s: State, step: Step, t: State)
    requires Next(s, step) == Some(t) && !step.ExtractOk? && (s.at.Tracking? || s.at.Extracting?)
    ensures !t.at.Locking?
  {
  }

  lemma LocksAfterExtract(s: State, step: Step, t: State)
    requires Inv(s) && Next(s, step) == Some(t) && !s.at.Locking? && !step.ExtractOk?
    ensures !t.at.Locking?
  {
    if s.at.Tracking? || s.at.Extracting? {
      LocksAfterEarly(s, step, t);
    } else if step != CpsWrite {
      StepGoesOn(s, step, t);
    }
  }

  lemma {:induction false} AtLockAfterExtract(steps: seq<Step>, states: seq<State>, i: nat)
    requires IsRun(steps, states) && i < |states| && states[i].at.Locking?
    ensures exists m :: 0 <= m < i && steps[m] == ExtractOk
  {
    assert i > 0;
    RunKeepsInv(steps, states, i - 1);
    if states[i - 1].at.Locking? {
      AtLockAfterExtract(steps, states, i - 1);
    } else if steps[i - 1] != ExtractOk {
      LocksAfterExtract(states[i - 1], steps[i - 1], states[i]);
    }
  }

  /** The extract runs before the lock is asked for, and outside it. */
  lemma ExtractBeforeLock(steps: seq<Step>, states: seq<State>, i: nat)
    requires IsRun(steps, states) && i < |steps|
    ensures steps[i].LockOk? || steps[i].LockFail? ==> exists m :: 0 <= m < i && steps[m] == ExtractOk
    ensures steps[i].ExtractOk? || steps[i].ExtractFail? ==> !states[i].locked && states[i].cps.Unstarted?
  {
    assert Next(states[i], steps[i]) == Some(states[i + 1]);
    RunKeepsInv(steps, states, i);
    if states[i].at.Locking? { AtLockAfterExtract(steps, states, i); }
  }
}
