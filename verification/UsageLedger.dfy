/** The usage counters of one User node and the six Cypher programs that touch them.
    Every program but the admin reset first heals the monthly timer; two of them also
    heal the weekly one. Times are integers; `nextMonth` is `datetime() + 1 month`. */
module UsageLedger {
  import opened Wrappers

  const WEEK := 7 * 24 * 3600 * 1000

  datatype Tier = Free | Paid(name: string)

  datatype User = User(
    meetings: Option<int>,
    tokens: Option<int>,
    chars: Option<int>,
    lite: Option<int>,
    liteWeekly: Option<int>,
    resetAt: Option<int>,
    weeklyResetAt: Option<int>,
    tier: Option<Tier>,
    tierEndsAt: Option<int>,
    tierUpdatedAt: int,
    updatedAt: int)

  function Coalesce(x: Option<int>): int {
    if x.Some? then x.value else 0
  }

  /** NULL or passed. */
  predicate Due(at: Option<int>, now: int) {
    at.None? || now >= at.value
  }

  function Touch(u: User, now: int): User {
    u.(updatedAt := now)
  }

  function ResetMonth(u: User, nextMonth: int): User {
    u.(meetings := Some(0), tokens := Some(0), chars := Some(0), lite := Some(0), resetAt := Some(nextMonth))
  }

  function ResetWeek(u: User, now: int): User {
    u.(liteWeekly := Some(0), weeklyResetAt := Some(now + WEEK))
  }

  function HealMonth(u: User, now: int, nextMonth: int): User {
    if Due(u.resetAt, now) then ResetMonth(u, nextMonth) else u
  }

  function HealWeek(u: User, now: int): User {
    if Due(u.weeklyResetAt, now) then ResetWeek(u, now) else u
  }

  predicate GrantOver(u: User, now: int) {
    u.tierEndsAt.Some? && now >= u.tierEndsAt.value
  }

  function Demote(u: User, now: int): User {
    if GrantOver(u, now) then u.(tier := Some(Free), tierEndsAt := None, tierUpdatedAt := now) else u
  }

  datatype Op =
    | GetUsage
    | TryIncrement(limit: int)
    | AddTokens(delta: int)
    | AddLite(delta: int)
    | AddChars(delta: int)
    | AdminReset

  datatype Event = Event(op: Op, now: int, nextMonth: int)

  ghost predicate WellTimed(e: Event) {
    e.now < e.nextMonth
  }

  /** `add_tokens` and `add_chars` run no Cypher for a delta of zero or less. */
  predicate Runs(op: Op) {
    (op.AddTokens? || op.AddLite? || op.AddChars?) ==> op.delta > 0
  }

  predicate HealsMonth(op: Op) {
    Runs(op) && !op.AdminReset?
  }

  predicate HealsWeek(op: Op) {
    Runs(op) && (op.GetUsage? || op.AddLite?)
  }

  predicate Accepts(u: User, limit: int) {
    Coalesce(u.meetings) < limit
  }

  /** One program as a whole. */
  function Apply(u: User, e: Event): User {
    if !Runs(e.op) then u
    else
      match e.op
      case GetUsage =>
        var v := Demote(u, e.now);
        var healed := HealMonth(v, e.now, e.nextMonth);
        HealWeek(if Due(v.resetAt, e.now) then Touch(healed, e.now) else healed, e.now)
      case TryIncrement(limit) =>
        var v := HealMonth(Touch(u, e.now), e.now, e.nextMonth);
        if Accepts(v, limit) then v.(meetings := Some(Coalesce(v.meetings) + 1)) else v
      case AddTokens(delta) =>
        var v := HealMonth(Touch(u, e.now), e.now, e.nextMonth);
        v.(tokens := Some(Coalesce(v.tokens) + delta))
      case AddLite(delta) =>
        var v := HealWeek(HealMonth(Touch(u, e.now), e.now, e.nextMonth), e.now);
        v.(lite := Some(Coalesce(v.lite) + delta), liteWeekly := Some(Coalesce(v.liteWeekly) + delta))
      case AddChars(delta) =>
        var v := HealMonth(Touch(u, e.now), e.now, e.nextMonth);
        v.(chars := Some(Coalesce(v.chars) + delta))
      case AdminReset =>
        Touch(u.(meetings := Some(0), tokens := Some(0), chars := Some(0), lite := Some(0), liteWeekly := Some(0)), e.now)
  }

  function Run(u: User, es: seq<Event>): User {
    if es == [] then u else Apply(Run(u, es[..|es| - 1]), es[|es| - 1])
  }

  // ---- The node, program by program ---------------------------------------------------

  class UserNode {
    var user: User

    constructor (user: User)
      ensures this.user == user
    {
      this.user := user;
    }

    method ReadUsage(now: int, nextMonth: int) returns (seen: User)
      modifies this
      ensures user == seen == Apply(old(user), Event(GetUsage, now, nextMonth))
      ensures old(user.tierEndsAt.Some? && user.tierEndsAt.value <= now) ==>
                user.tier == Some(Free) && user.tierEndsAt == None && user.tierUpdatedAt == now
      ensures old(user.tierEndsAt.None? || now < user.tierEndsAt.value) ==>
                && user.tier == old(user.tier) && user.tierEndsAt == old(user.tierEndsAt)
                && user.tierUpdatedAt == old(user.tierUpdatedAt)
    {
      if GrantOver(user, now) {
        user := user.(tier := Some(Free), tierEndsAt := None, tierUpdatedAt := now);
      }
      if Due(user.resetAt, now) {
        user := Touch(ResetMonth(user, nextMonth), now);
      }
      if Due(user.weeklyResetAt, now) {
        user := ResetWeek(user, now);
      }
      return user;
    }

    /** Checks the limit and counts one meeting; `current` is the new count, or the count
        that was already at the limit. */
    method TryIncrementMeetingCount(limit: int, now: int, nextMonth: int) returns (exceeded: bool, current: int)
      modifies this
      ensures user == Apply(old(user), Event(TryIncrement(limit), now, nextMonth))
      ensures current == Coalesce(user.meetings)
      ensures exceeded <==> limit <= if Due(old(user.resetAt), now) then 0 else Coalesce(old(user.meetings))
      ensures exceeded ==> current >= limit
      ensures !exceeded ==> current <= limit
    {
      user := Touch(user, now);
      if Due(user.resetAt, now) {
        user := ResetMonth(user, nextMonth);
      }
      current := Coalesce(user.meetings);
      exceeded := current >= limit;
      if !exceeded {
        user := user.(meetings := Some(current + 1));
        current := current + 1;
      }
    }

    /** None when nothing is run; otherwise the bucket's own running total. */
    method BookTokens(delta: int, liteBucket: bool, now: int, nextMonth: int) returns (total: Option<int>)
      modifies this
      ensures user == Apply(old(user), Event(if liteBucket then AddLite(delta) else AddTokens(delta), now, nextMonth))
      ensures total == if delta <= 0 then None else if liteBucket then user.liteWeekly else user.tokens
      ensures delta <= 0 ==> user == old(user)
      ensures delta > 0 && !liteBucket ==>
                total == Some(delta + if Due(old(user.resetAt), now) then 0 else Coalesce(old(user.tokens)))
    {
      if delta <= 0 { return None; }
      user := Touch(user, now);
      if Due(user.resetAt, now) {
        user := ResetMonth(user, nextMonth);
      }
      if liteBucket {
        if Due(user.weeklyResetAt, now) {
          user := ResetWeek(user, now);
        }
        user := user.(lite := Some(Coalesce(user.lite) + delta), liteWeekly := Some(Coalesce(user.liteWeekly) + delta));
        return user.liteWeekly;
      }
      user := user.(tokens := Some(Coalesce(user.tokens) + delta));
      return user.tokens;
    }

    method CountChars(delta: int, now: int, nextMonth: int) returns (total: Option<int>)
      modifies this
      ensures user == Apply(old(user), Event(AddChars(delta), now, nextMonth))
      ensures total == if delta <= 0 then None else user.chars
      ensures delta <= 0 ==> user == old(user)
    {
      if delta <= 0 { return None; }
      user := Touch(user, now);
      if Due(user.resetAt, now) {
        user := ResetMonth(user, nextMonth);
      }
      user := user.(chars := Some(Coalesce(user.chars) + delta));
      return user.chars;
    }

    method ResetUsage(now: int, nextMonth: int)
      modifies this
      ensures user == Apply(old(user), Event(AdminReset, now, nextMonth))
      ensures forall c :: Value(user, c) == 0
      ensures user.resetAt == old(user.resetAt) && user.weeklyResetAt == old(user.weeklyResetAt)
    {
      user := user.(meetings := Some(0), tokens := Some(0), chars := Some(0), lite := Some(0), liteWeekly := Some(0));
      user := Touch(user, now);
    }
  }

  // ---- What a run amounts to ----------------------------------------------------------

  /** The monthly timer after a run, from event times alone. */
  ghost function MonthTimer(at: Option<int>, es: seq<Event>): Option<int> {
    if es == [] then at
    else
      var e, before := es[|es| - 1], MonthTimer(at, es[..|es| - 1]);
      if HealsMonth(e.op) && Due(before, e.now) then Some(e.nextMonth) else before
  }

  /** Likewise the weekly timer. */
  ghost function WeekTimer(at: Option<int>, es: seq<Event>): Option<int> {
    if es == [] then at
    else
      var e, before := es[|es| - 1], WeekTimer(at, es[..|es| - 1]);
      if HealsWeek(e.op) && Due(before, e.now) then Some(e.now + WEEK) else before
  }

  ghost predicate MonthEnds(u: User, es: seq<Event>, i: nat)
    requires i < |es|
  {
    HealsMonth(es[i].op) && Due(MonthTimer(u.resetAt, es[..i]), es[i].now)
  }

  ghost predicate WeekEnds(u: User, es: seq<Event>, i: nat)
    requires i < |es|
  {
    HealsWeek(es[i].op) && Due(WeekTimer(u.weeklyResetAt, es[..i]), es[i].now)
  }

  datatype Counter = Meetings | Tokens | Chars | Lite | LiteWeekly

  function Value(u: User, c: Counter): int {
    Coalesce(match c
             case Meetings => u.meetings case Tokens => u.tokens case Chars => u.chars
             case Lite => u.lite case LiteWeekly => u.liteWeekly)
  }

  /** Event i sets the counter to zero: its own timer ran out, or an admin reset. */
  ghost predicate Zeroed(u: User, es: seq<Event>, c: Counter, i: nat)
    requires i < |es|
  {
    es[i].op.AdminReset? || if c.LiteWeekly? then WeekEnds(u, es, i) else MonthEnds(u, es, i)
  }

  /** Event i is an increment that was let through. */
  ghost predicate Accepted(u: User, es: seq<Event>, i: nat)
    requires i < |es|
  {
    es[i].op.TryIncrement? && Accepts(HealMonth(Run(u, es[..i]), es[i].now, es[i].nextMonth), es[i].op.limit)
  }

  /** What event i adds to the counter. */
  ghost function Added(u: User, es: seq<Event>, c: Counter, i: nat): int
    requires i < |es|
  {
    match es[i].op
    case TryIncrement(_) => if c.Meetings? && Accepted(u, es, i) then 1 else 0
    case AddTokens(delta) => if c.Tokens? && delta > 0 then delta else 0
    case AddLite(delta) => if (c.Lite? || c.LiteWeekly?) && delta > 0 then delta else 0
    case AddChars(delta) => if c.Chars? && delta > 0 then delta else 0
    case _ => 0
  }

  ghost function SumAdded(u: User, es: seq<Event>, c: Counter, from: nat, to: nat): int
    requires from <= to <= |es|
  {
    if from == to then 0 else SumAdded(u, es, c, from, to - 1) + Added(u, es, c, to - 1)
  }

  /** `k` is the last of the first n events that zeroed the counter. */
  ghost predicate LastZeroed(u: User, es: seq<Event>, c: Counter, n: nat, k: nat)
    requires n <= |es|
  {
    k < n && Zeroed(u, es, c, k) && forall i | k < i < n :: !Zeroed(u, es, c, i)
  }

  /** None of the first n events zeroed the counter. */
  ghost predicate NeverZeroed(u: User, es: seq<Event>, c: Counter, n: nat)
    requires n <= |es|
  {
    forall i | 0 <= i < n :: !Zeroed(u, es, c, i)
  }

  /** One of the two always applies. */
  lemma {:induction false} ZeroedLastOrNever(u: User, es: seq<Event>, c: Counter, n: nat)
    requires n <= |es|
    ensures NeverZeroed(u, es, c, n) || exists k: nat :: LastZeroed(u, es, c, n, k)
  {
    if n > 0 {
      var m := n - 1;
      ZeroedLastOrNever(u, es, c, m);
      if Zeroed(u, es, c, m) {
        assert LastZeroed(u, es, c, n, m);
      } else if k: nat :| LastZeroed(u, es, c, m, k) {
        assert LastZeroed(u, es, c, n, k);
      }
    }
  }

  lemma {:induction false} RunTimers(u: User, es: seq<Event>)
    ensures Run(u, es).resetAt == MonthTimer(u.resetAt, es)
    ensures Run(u, es).weeklyResetAt == WeekTimer(u.weeklyResetAt, es)
  {
    if es != [] { RunTimers(u, es[..|es| - 1]); }
  }

  /** What an event does to one counter of a user. */
  lemma ApplyCounts(u: User, e: Event, c: Counter)
    ensures Value(Apply(u, e), c) ==
            (if e.op.AdminReset? || (if c.LiteWeekly? then HealsWeek(e.op) && Due(u.weeklyResetAt, e.now)
                                     else HealsMonth(e.op) && Due(u.resetAt, e.now)) then 0 else Value(u, c))
            + match e.op
              case TryIncrement(limit) => if c.Meetings? && Accepts(HealMonth(u, e.now, e.nextMonth), limit) then 1 else 0
              case AddTokens(delta) => if c.Tokens? && delta > 0 then delta else 0
              case AddLite(delta) => if (c.Lite? || c.LiteWeekly?) && delta > 0 then delta else 0
              case AddChars(delta) => if c.Chars? && delta > 0 then delta else 0
              case _ => 0
  {
  }

  /** One event: a zeroed counter restarts from what the event adds, any other goes on. */
  lemma OneEvent(u: User, es: seq<Event>, c: Counter, n: nat)
    requires n < |es|
    ensures Value(Run(u, es[..n + 1]), c) ==
            (if Zeroed(u, es, c, n) then 0 else Value(Run(u, es[..n]), c)) + Added(u, es, c, n)
  {
    assert es[..n + 1][..n] == es[..n];
    RunTimers(u, es[..n]);
    ApplyCounts(Run(u, es[..n]), es[n], c);
  }

  lemma SamePast(u: User, es: seq<Event>, c: Counter, n: nat, i: nat)
    requires i < n <= |es|
    ensures Zeroed(u, es[..n], c, i) == Zeroed(u, es, c, i)
    ensures Added(u, es[..n], c, i) == Added(u, es, c, i)
    ensures Accepted(u, es[..n], i) == Accepted(u, es, i)
  {
    assert es[..n][..i] == es[..i];
  }

  /** Each counter is the sum of what was added since it was last zeroed, starting with
      the very event that zeroed it; if it never was, on top of its first value. */
  lemma {:induction false} CounterIsSumSinceZero(u: User, es: seq<Event>, c: Counter, n: nat)
    requires n <= |es|
    ensures forall k: nat | LastZeroed(u, es, c, n, k) :: Value(Run(u, es[..n]), c) == SumAdded(u, es, c, k, n)
    ensures NeverZeroed(u, es, c, n) ==> Value(Run(u, es[..n]), c) == Value(u, c) + SumAdded(u, es, c, 0, n)
  {
    if n > 0 {
      CounterIsSumSinceZero(u, es, c, n - 1);
      OneEvent(u, es, c, n - 1);
      forall k: nat | LastZeroed(u, es, c, n, k) ensures Value(Run(u, es[..n]), c) == SumAdded(u, es, c, k, n) {
        if k < n - 1 {
          assert LastZeroed(u, es, c, n - 1, k);
        } else {
          assert SumAdded(u, es, c, k, n) == SumAdded(u, es, c, k, k) + Added(u, es, c, k);
        }
      }
    }
  }

  /** Right after an increment was let through the count is within its limit. */
  lemma AcceptedCount(u: User, es: seq<Event>, i: nat)
    requires i < |es| && Accepted(u, es, i)
    ensures Value(Run(u, es[..i + 1]), Meetings) <= es[i].op.limit
  {
    assert es[..i + 1][..i] == es[..i];
  }

  /** The meetings the first n events counted are within the limit: those since the last
      zeroing or, in a cycle that began before the run, all of them on top of the count
      the run found. One of the two cases always applies. */
  ghost predicate WithinLimit(u: User, es: seq<Event>, n: nat, limit: int)
    requires n <= |es|
  {
    && (NeverZeroed(u, es, Meetings, n) ==> Value(u, Meetings) + SumAdded(u, es, Meetings, 0, n) <= limit)
    && (forall k: nat | LastZeroed(u, es, Meetings, n, k) :: SumAdded(u, es, Meetings, k, n) <= limit)
    && (NeverZeroed(u, es, Meetings, n) || exists k: nat :: LastZeroed(u, es, Meetings, n, k))
  }

  /** Increments let through never pass the limit they were checked against, in the first
      cycle of an account as in every later one. */
  lemma AcceptedWithinLimit(u: User, es: seq<Event>, i: nat)
    requires i < |es| && Accepted(u, es, i)
    ensures WithinLimit(u, es, i + 1, es[i].op.limit)
  {
    AcceptedCount(u, es, i);
    CounterIsSumSinceZero(u, es, Meetings, i + 1);
    ZeroedLastOrNever(u, es, Meetings, i + 1);
  }

  /** A new account, whose counters are all NULL, counts from zero. */
  lemma NewAccountCountsFromZero(u: User, es: seq<Event>, c: Counter, n: nat)
    requires n <= |es| && NeverZeroed(u, es, c, n)
    requires u.meetings.None? && u.tokens.None? && u.chars.None? && u.lite.None? && u.liteWeekly.None?
    ensures Value(Run(u, es[..n]), c) == SumAdded(u, es, c, 0, n)
  {
    CounterIsSumSinceZero(u, es, c, n);
  }

  /** A delta of zero or less changes nothing. Any other program touches the node, but for
      a read inside a month that is not over. */
  lemma TouchedExactlyWhen(u: User, e: Event)
    ensures (e.op.AddTokens? || e.op.AddLite? || e.op.AddChars?) && e.op.delta <= 0 ==> Apply(u, e) == u
    ensures (e.op.AddTokens? || e.op.AddLite? || e.op.AddChars?) && e.op.delta > 0 ==> Apply(u, e).updatedAt == e.now
    ensures e.op.TryIncrement? || e.op.AdminReset? ==> Apply(u, e).updatedAt == e.now
    ensures e.op.GetUsage? ==>
              Apply(u, e).updatedAt == if u.resetAt.None? || u.resetAt.value <= e.now then e.now else u.updatedAt
  {
  }

  /** Any program that reads or adds leaves the monthly timer strictly in the future, the
      two that use the weekly timer leave that one in the future too, and an admin reset
      moves neither. */
  lemma TimersAfter(u: User, e: Event)
    requires WellTimed(e)
    ensures HealsMonth(e.op) ==> Apply(u, e).resetAt.Some? && Apply(u, e).resetAt.value > e.now
    ensures HealsWeek(e.op) ==> Apply(u, e).weeklyResetAt.Some? && Apply(u, e).weeklyResetAt.value > e.now
    ensures !HealsMonth(e.op) ==> Apply(u, e).resetAt == u.resetAt
    ensures !HealsWeek(e.op) ==> Apply(u, e).weeklyResetAt == u.weeklyResetAt
  {
  }

  /** A month that has begun runs its full length: the next zeroing by the timer comes at
      or after the end the previous one set. */
  lemma {:induction false} MonthsRunInFull(u: User, es: seq<Event>, i: nat, j: nat)
    requires i < j < |es| && MonthEnds(u, es, i) && MonthEnds(u, es, j)
    requires forall m | i < m < j :: !MonthEnds(u, es, m)
    ensures es[j].now >= es[i].nextMonth
  {
    TimerHolds(u, es, i, j);
  }

  lemma {:induction false} TimerHolds(u: User, es: seq<Event>, i: nat, j: nat)
    requires i < j <= |es| && MonthEnds(u, es, i) && forall m | i < m < j :: !MonthEnds(u, es, m)
    ensures MonthTimer(u.resetAt, es[..j]) == Some(es[i].nextMonth)
  {
    assert es[..j][..j - 1] == es[..j - 1];
    if j > i + 1 {
      TimerHolds(u, es, i, j - 1);
      assert !MonthEnds(u, es, j - 1);
    }
  }

  /** Event i is the first read at or after the end of the grant. */
  ghost predicate FirstDemotion(end: int, es: seq<Event>, i: nat) {
    && i < |es| && es[i].op.GetUsage? && end <= es[i].now
    && forall m | 0 <= m < i :: !(es[m].op.GetUsage? && end <= es[m].now)
  }

  ghost predicate SameTier(u: User, v: User) {
    v.tier == u.tier && v.tierEndsAt == u.tierEndsAt && v.tierUpdatedAt == u.tierUpdatedAt
  }

  /** A grant that ends at a given time is demoted by the first read at or after it: not by
      any event before, at that read, and once, since the tier stays free. A grant without
      an end, and one that no such read comes for, is left alone. */
  lemma {:induction false} GrantExpiresOnce(u: User, es: seq<Event>)
    ensures u.tierEndsAt.None? ==> SameTier(u, Run(u, es))
    ensures u.tierEndsAt.Some? ==>
              && (forall i: nat | FirstDemotion(u.tierEndsAt.value, es, i) ::
                    Run(u, es).tier == Some(Free) && Run(u, es).tierEndsAt == None && Run(u, es).tierUpdatedAt == es[i].now)
              && ((forall m | 0 <= m < |es| :: !(es[m].op.GetUsage? && u.tierEndsAt.value <= es[m].now)) ==>
                    SameTier(u, Run(u, es)))
  {
    if es != [] {
      var past, last := es[..|es| - 1], es[|es| - 1];
      GrantExpiresOnce(u, past);
      TierStep(Run(u, past), last);
      if u.tierEndsAt.Some? {
        forall i: nat | FirstDemotion(u.tierEndsAt.value, es, i)
          ensures Run(u, es).tier == Some(Free) && Run(u, es).tierEndsAt == None && Run(u, es).tierUpdatedAt == es[i].now
        {
          if i < |past| { assert FirstDemotion(u.tierEndsAt.value, past, i); }
        }
      }
    }
  }

  lemma TierStep(u: User, e: Event)
    ensures var v := Apply(u, e);
            if e.op.GetUsage? && u.tierEndsAt.Some? && u.tierEndsAt.value <= e.now
            then v.tier == Some(Free) && v.tierEndsAt == None && v.tierUpdatedAt == e.now
            else SameTier(u, v)
  {
  }
}
