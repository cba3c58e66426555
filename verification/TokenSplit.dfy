/** Token accounting of one job: `TokenAccumulator`, `TrackedGemini` with its mid-job
    downgrade, and the split that `_persist_token_usage` records. Calls are sequential. */
module TokenSplit {
  import opened Wrappers

  datatype TokenUsage = TokenUsage(prompt: nat, completion: nat, total: nat, cached: nat)

  const NO_USAGE := TokenUsage(0, 0, 0, 0)

  function Plus(a: TokenUsage, b: TokenUsage): TokenUsage {
    TokenUsage(a.prompt + b.prompt, a.completion + b.completion, a.total + b.total, a.cached + b.cached)
  }

  type Client = string
  type Model = string

  /** One `generate`: the model the caller asks for and the usage the response carries. */
  datatype Request = Request(model: Option<Model>, usage: Option<TokenUsage>)

  /** What a `generate` was sent to. */
  datatype Sent = Sent(client: Client, model: Option<Model>)

  /** The arguments of the TrackedGemini constructor. */
  datatype Setup = Setup(
    inner: Client,
    downgradeLite: Option<Client>,
    baseUsage: int,
    mainLimit: int,
    forceModel: Option<Model>,
    downgradeForceModel: Option<Model>)

  predicate Armed(c: Setup) {
    c.downgradeLite.Some? && c.mainLimit > 0
  }

  // ---- What a job should amount to ---------------------------------------------------

  function Used(r: Request): nat {
    if r.usage.Some? then r.usage.value.total else 0
  }

  /** The tokens of the first n calls. */
  function Spent(calls: seq<Request>, n: nat): nat
    requires n <= |calls|
  {
    if n == 0 then 0 else Spent(calls, n - 1) + Used(calls[n - 1])
  }

  /** The first n calls end with one that reports usage and brings the account to its limit. */
  predicate Crosses(c: Setup, calls: seq<Request>, n: nat)
    requires n <= |calls|
  {
    n > 0 && calls[n - 1].usage.Some? && c.baseUsage + Spent(calls, n) >= c.mainLimit
  }

  /** The length of the shortest crossing prefix of an armed job. */
  ghost predicate DowngradesAfter(c: Setup, calls: seq<Request>, n: nat) {
    && Armed(c) && n <= |calls| && Crosses(c, calls, n)
    && forall m | 0 < m < n :: !Crosses(c, calls, m)
  }

  ghost predicate NeverDowngrades(c: Setup, calls: seq<Request>) {
    Armed(c) ==> forall m | 0 < m <= |calls| :: !Crosses(c, calls, m)
  }

  function Chosen(force: Option<Model>, asked: Option<Model>): Option<Model> {
    if force.Some? then force else asked
  }

  function LateForce(c: Setup): Option<Model> {
    if c.downgradeForceModel.Some? then c.downgradeForceModel else c.forceModel
  }

  /** Where call i goes when the job has downgraded, or not, before it. */
  function Routed(c: Setup, asked: Option<Model>, downgraded: bool): Sent {
    if downgraded && c.downgradeLite.Some? then Sent(c.downgradeLite.value, Chosen(LateForce(c), asked))
    else Sent(c.inner, Chosen(c.forceModel, asked))
  }

  /** A call goes to the main client up to the downgrade and to the lite client after it, and
      the model that is forced at that point, the one for after the downgrade before the
      general one, wins over the one asked for. */
  lemma RoutedMeans(c: Setup, asked: Option<Model>, downgraded: bool)
    requires downgraded ==> c.downgradeLite.Some?
    ensures var s := Routed(c, asked, downgraded);
            && Some(s.client) == (if downgraded then c.downgradeLite else Some(c.inner))
            && (downgraded && c.downgradeForceModel.Some? ==> s.model == c.downgradeForceModel)
            && (!(downgraded && c.downgradeForceModel.Some?) && c.forceModel.Some? ==> s.model == c.forceModel)
            && (!(downgraded && c.downgradeForceModel.Some?) && c.forceModel.None? ==> s.model == asked)
  {
  }

  // ---- The objects -------------------------------------------------------------------

  class TokenAccumulator {
    var total: TokenUsage
    var mainBucketTokens: Option<nat>

    constructor ()
      ensures total == NO_USAGE && mainBucketTokens == None
    {
      total, mainBucketTokens := NO_USAGE, None;
    }

    method AddUsage(usage: TokenUsage)
      modifies this`total
      ensures total.prompt == old(total.prompt) + usage.prompt && total.completion == old(total.completion) + usage.completion
      ensures total.total == old(total.total) + usage.total && total.cached == old(total.cached) + usage.cached
    {
      total := Plus(total, usage);
    }
  }

  class TrackedGemini {
    const setup: Setup
    const accumulator: TokenAccumulator
    var inner: Client
    var forceModel: Option<Model>
    var downgraded: bool

    constructor (setup: Setup, accumulator: TokenAccumulator)
      ensures this.setup == setup && this.accumulator == accumulator
      ensures inner == setup.inner && forceModel == setup.forceModel && !downgraded
    {
      this.setup, this.accumulator := setup, accumulator;
      inner, forceModel, downgraded := setup.inner, setup.forceModel, false;
    }

    /** The object has made these calls and nothing else. */
    ghost predicate HasMade(calls: seq<Request>)
      reads this, accumulator
    {
      && accumulator.total.total == Spent(calls, |calls|)
      && (downgraded ==>
            && Armed(setup)
            && inner == setup.downgradeLite.value && forceModel == LateForce(setup)
            && exists n :: DowngradesAfter(setup, calls, n) && accumulator.mainBucketTokens == Some(Spent(calls, n)))
      && (!downgraded ==>
            && inner == setup.inner && forceModel == setup.forceModel
            && accumulator.mainBucketTokens == None && NeverDowngrades(setup, calls))
    }

    method MaybeDowngrade()
      modifies this, accumulator`mainBucketTokens
      ensures var fires := !old(downgraded) && setup.downgradeLite.Some? && setup.mainLimit > 0
                           && setup.baseUsage + accumulator.total.total >= setup.mainLimit;
              && downgraded == (old(downgraded) || fires)
              && accumulator.mainBucketTokens ==
                   (if fires then Some(accumulator.total.total) else old(accumulator.mainBucketTokens))
              && inner == (if fires then setup.downgradeLite.value else old(inner))
              && forceModel == (if fires && setup.downgradeForceModel.Some? then setup.downgradeForceModel
                                else old(forceModel))
    {
      if downgraded || setup.downgradeLite.None? || setup.mainLimit <= 0 { return; }
      if setup.baseUsage + accumulator.total.total >= setup.mainLimit {
        accumulator.mainBucketTokens := Some(accumulator.total.total);
        inner := setup.downgradeLite.value;
        downgraded := true;
        if setup.downgradeForceModel.Some? {
          forceModel := setup.downgradeForceModel;
        }
      }
    }

    /** `past` is the calls made so far. */
    method Generate(r: Request, ghost past: seq<Request>) returns (sent: Sent)
      requires HasMade(past)
      modifies this, accumulator
      ensures HasMade(past + [r])
      ensures sent == Routed(setup, r.model, old(downgraded))
    {
      sent := Sent(inner, Chosen(forceModel, r.model));
      ghost var calls := past + [r];
      PrefixSpent(past, calls, |past|);
      assert calls[..|past|] == past;
      PrefixDowngrades(setup, past, r);
      if r.usage.Some? {
        accumulator.AddUsage(r.usage.value);
        MaybeDowngrade();
        if downgraded && !old(downgraded) {
          assert DowngradesAfter(setup, calls, |calls|);
        }
      }
      if old(downgraded) {
        ghost var n :| DowngradesAfter(setup, past, n) && accumulator.mainBucketTokens == Some(Spent(past, n));
        PrefixSpent(past, calls, n);
        assert DowngradesAfter(setup, calls, n);
      }
    }

    /** A whole job: every call up to and including the crossing one goes to the main
        client, every later one to the lite client with the forced model, and the recorded
        split is what the crossing prefix spent. */
    method RunJob(calls: seq<Request>) returns (log: seq<Sent>)
      requires HasMade([])
      modifies this, accumulator
      ensures |log| == |calls|
      ensures accumulator.total.total == Spent(calls, |calls|)
      ensures accumulator.mainBucketTokens.Some? <==> exists n :: DowngradesAfter(setup, calls, n)
      ensures forall n | DowngradesAfter(setup, calls, n) ::
                && accumulator.mainBucketTokens == Some(Spent(calls, n))
                && forall i | 0 <= i < |calls| :: log[i] == Routed(setup, calls[i].model, i >= n)
      ensures accumulator.mainBucketTokens.None? ==>
                forall i | 0 <= i < |calls| :: log[i] == Routed(setup, calls[i].model, false)
    {
      log := [];
      ghost var n: nat := |calls| + 1;    // the crossing prefix, once there is one
      for i := 0 to |calls|
        invariant |log| == i
        invariant HasMade(calls[..i])
        invariant downgraded <==> n <= i
        invariant n <= i ==> DowngradesAfter(setup, calls[..i], n)
        invariant n > i ==> n == |calls| + 1
        invariant forall k | 0 <= k < i :: log[k] == Routed(setup, calls[k].model, k >= n)
      {
        assert calls[..i] + [calls[i]] == calls[..i + 1];
        ghost var before := downgraded;
        var sent := Generate(calls[i], calls[..i]);
        log := log + [sent];
        if n <= i {
          KeepsDowngrade(setup, calls[..i], calls[i], n);
          StaysDowngraded(setup, calls[..i + 1], n);
        } else if downgraded {
          n := i + 1;
          CrossesNow(setup, calls[..i], calls[i]);
        }
      }
      assert calls[..|calls|] == calls;
      forall m | DowngradesAfter(setup, calls, m)
        ensures downgraded && m == n
      {
        if n <= |calls| { OneDowngrade(setup, calls, m, n); }
      }
      if downgraded {
        ghost var m :| DowngradesAfter(setup, calls, m) && accumulator.mainBucketTokens == Some(Spent(calls, m));
        OneDowngrade(setup, calls, m, n);
      }
    }
  }

  lemma {:induction false} PrefixSpent(past: seq<Request>, calls: seq<Request>, n: nat)
    requires n <= |past| && past <= calls
    ensures Spent(past, n) == Spent(calls, n)
  {
    if n > 0 { PrefixSpent(past, calls, n - 1); }
  }

  lemma PrefixDowngrades(c: Setup, past: seq<Request>, r: Request)
    ensures forall m | 0 < m <= |past| :: Crosses(c, past + [r], m) == Crosses(c, past, m)
  {
    forall m | 0 < m <= |past| ensures Crosses(c, past + [r], m) == Crosses(c, past, m) {
      PrefixSpent(past, past + [r], m);
    }
  }

  lemma KeepsDowngrade(c: Setup, past: seq<Request>, r: Request, n: nat)
    requires DowngradesAfter(c, past, n)
    ensures DowngradesAfter(c, past + [r], n)
  {
    PrefixDowngrades(c, past, r);
  }

  lemma StaysDowngraded(c: Setup, calls: seq<Request>, n: nat)
    requires DowngradesAfter(c, calls, n)
    ensures !NeverDowngrades(c, calls)
  {
  }

  lemma CrossesNow(c: Setup, past: seq<Request>, r: Request)
    requires NeverDowngrades(c, past)
    ensures forall n | DowngradesAfter(c, past + [r], n) :: n == |past| + 1
  {
    PrefixDowngrades(c, past, r);
  }

  lemma OneDowngrade(c: Setup, calls: seq<Request>, m: nat, n: nat)
    requires DowngradesAfter(c, calls, m) && DowngradesAfter(c, calls, n)
    ensures m == n
  {
  }

  // ---- Overshoot ---------------------------------------------------------------------

  /** The main bucket overshoots its limit by less than the one call that crossed it,
      exactly when the account was below its limit as the job began. */
  lemma OvershootIsOneCall(c: Setup, calls: seq<Request>, n: nat)
    requires DowngradesAfter(c, calls, n)
    ensures c.baseUsage + Spent(calls, n) - c.mainLimit < Used(calls[n - 1]) <==> c.baseUsage < c.mainLimit
  {
    BelowBefore(c, calls, n - 1);
  }

  lemma {:induction false} BelowBefore(c: Setup, calls: seq<Request>, k: nat)
    requires k <= |calls| && forall m | 0 < m <= k :: !Crosses(c, calls, m)
    ensures c.baseUsage + Spent(calls, k) < c.mainLimit <==> c.baseUsage < c.mainLimit
  {
    if k > 0 {
      BelowBefore(c, calls, k - 1);
      assert !Crosses(c, calls, k);
      SpentGrows(calls, k);
    }
  }

  lemma {:induction false} SpentGrows(calls: seq<Request>, k: nat)
    requires k <= |calls|
    ensures Spent(calls, k) >= 0 && (k > 0 ==> Spent(calls, k) >= Spent(calls, k - 1))
  {
  }

  // ---- Recording ---------------------------------------------------------------------

  datatype Bucket = MainBucket | LiteBucket

  datatype Booking = Booking(bucket: Bucket, amount: int)

  function Booked(bookings: seq<Booking>, bucket: Bucket): int {
    if bookings == [] then 0
    else Booked(bookings[1..], bucket) + if bookings[0].bucket == bucket then bookings[0].amount else 0
  }

  lemma {:induction false} BookedAppend(bookings: seq<Booking>, b: Booking)
    ensures forall k :: Booked(bookings + [b], k) == Booked(bookings, k) + if b.bucket == k then b.amount else 0
  {
    if bookings != [] {
      assert (bookings + [b])[1..] == bookings[1..] + [b];
      BookedAppend(bookings[1..], b);
    }
  }

  /** `_persist_token_usage`, returning the `add_tokens` calls that went through. `bucket`
      is the bucket of the quota decision; `mainOk` and `lastOk` are whether the call for
      the main part of a split, and the last or only one, raise nothing. A failure is
      swallowed, and one for the main part takes the lite part with it; so the total is
      booked exactly when every call goes through. */
  method PersistTokenUsage(email: string, total: nat, split: Option<nat>, bucket: Bucket, mainOk: bool, lastOk: bool)
    returns (bookings: seq<Booking>)
    ensures email == "" || total == 0 ==> bookings == []
    ensures email != "" && split.Some? && split.value < total ==>
              && Booked(bookings, MainBucket) == (if mainOk then split.value else 0)
              && Booked(bookings, LiteBucket)
                 == if lastOk && (split.value > 0 ==> mainOk) then total - split.value else 0
    ensures email != "" && (split.None? || split.value >= total) ==>
              forall b :: Booked(bookings, b) == if b == bucket && lastOk then total else 0
    ensures email != "" && total > 0 ==>
              (Booked(bookings, MainBucket) + Booked(bookings, LiteBucket) == total <==>
               lastOk && (split.Some? && 0 < split.value < total ==> mainOk))
    ensures forall b | b in bookings :: b.amount > 0
  {
    if total <= 0 || email == "" { return []; }
    bookings := [];
    if split.Some? && split.value < total {
      if split.value > 0 {
        if !mainOk { return; }
        BookedAppend(bookings, Booking(MainBucket, split.value));
        bookings := bookings + [Booking(MainBucket, split.value)];
      }
      if !lastOk { return; }
      BookedAppend(bookings, Booking(LiteBucket, total - split.value));
      bookings := bookings + [Booking(LiteBucket, total - split.value)];
      return;
    }
    if lastOk { bookings := [Booking(bucket, total)]; }
  }

  /** Over a job that starts in the main bucket and whose bookings go through: what is
      booked to main is what the crossing prefix spent, and the rest goes to lite. A
      booking that fails can only be missing, never in the wrong bucket. */
  method RunAndPersist(g: TrackedGemini, email: string, calls: seq<Request>, mainOk: bool, lastOk: bool)
    returns (bookings: seq<Booking>)
    requires g.HasMade([]) && email != ""
    modifies g, g.accumulator
    ensures mainOk && lastOk ==>
              Booked(bookings, MainBucket) + Booked(bookings, LiteBucket) == Spent(calls, |calls|)
    ensures mainOk && lastOk ==> forall n | DowngradesAfter(g.setup, calls, n) :: Booked(bookings, MainBucket) == Spent(calls, n)
    ensures forall n | DowngradesAfter(g.setup, calls, n) ::
              && Booked(bookings, MainBucket) <= Spent(calls, n)
              && Booked(bookings, LiteBucket) <= Spent(calls, |calls|) - Spent(calls, n)
    ensures NeverDowngrades(g.setup, calls) ==>
              Booked(bookings, LiteBucket) == 0 && Booked(bookings, MainBucket) == if lastOk then Spent(calls, |calls|) else 0
  {
    var log := g.RunJob(calls);
    bookings := PersistTokenUsage(email, g.accumulator.total.total, g.accumulator.mainBucketTokens, MainBucket, mainOk, lastOk);
    forall n | DowngradesAfter(g.setup, calls, n)
      ensures mainOk && lastOk ==> Booked(bookings, MainBucket) == Spent(calls, n)
      ensures Booked(bookings, MainBucket) <= Spent(calls, n)
      ensures Booked(bookings, LiteBucket) <= Spent(calls, |calls|) - Spent(calls, n)
    {
      SpentUpTo(calls, n, |calls|);
    }
  }

  lemma {:induction false} SpentUpTo(calls: seq<Request>, k: nat, n: nat)
    requires k <= n <= |calls|
    ensures Spent(calls, k) <= Spent(calls, n)
  {
    if k < n { SpentUpTo(calls, k, n - 1); }
  }
}
