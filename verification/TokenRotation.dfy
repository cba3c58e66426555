/** Token revocation and refresh rotation: the jti blacklist with its circuit breaker,
    token creation and decoding, `refresh_access_token`, `logout` and the acceptance test
    of `get_current_user`. Redis answers every call. Times are seconds, as reals. */
module TokenRotation {
  import opened Wrappers

  const COOLDOWN := 60.0
  const ACCESS_MINUTES := 60
  const REFRESH_DAYS := 7

  // ---- Blacklist ---------------------------------------------------------------------

  /** When a revocation written at `now` with `SET ... EX ttl` disappears. Both clocks are
      truncated to whole seconds before the subtraction. */
  function RevokedUntil(now: real, exp: int): real {
    var ttl := if exp - now.Floor > 1 then exp - now.Floor else 1;
    now + ttl as real
  }

  /** The entry outlives the token: truncating the clock only ever lengthens the TTL. */
  lemma RevocationReachesExpiry(now: real, exp: int)
    ensures RevokedUntil(now, exp) >= exp as real
    ensures RevokedUntil(now, exp) > now
    ensures exp as real > now + 1.0 ==> RevokedUntil(now, exp) < exp as real + 1.0
    ensures exp as real <= now + 1.0 ==> RevokedUntil(now, exp) == now + 1.0
  {
  }

  predicate BreakerOpen(mono: real, lastFailureAt: real) {
    mono - lastFailureAt < COOLDOWN
  }

  predicate Listed(keys: map<string, real>, jti: string, now: real) {
    jti in keys && now < keys[jti]
  }

  class Blacklist {
    var keys: map<string, real>     // jti -> the instant its entry expires
    var lastFailureAt: real

    constructor ()
      ensures keys == map[] && lastFailureAt == 0.0
    {
      keys, lastFailureAt := map[], 0.0;
    }

    method IsRevoked(jti: string, now: real, mono: real) returns (revoked: bool)
      modifies this`lastFailureAt
      ensures revoked <==> mono >= old(lastFailureAt) + COOLDOWN && jti in keys && now < keys[jti]
      ensures lastFailureAt == if BreakerOpen(mono, old(lastFailureAt)) then old(lastFailureAt) else 0.0
    {
      if BreakerOpen(mono, lastFailureAt) { return false; }
      lastFailureAt := 0.0;
      return Listed(keys, jti, now);
    }

    /** True whenever both arguments are there: also when the open breaker has skipped the
        write, in which case the list is as it was. */
    method RevokeIfNew(jti: string, exp: int, now: real, mono: real) returns (ok: bool)
      modifies this
      ensures ok <==> jti != "" && exp != 0
      ensures keys == if ok && !BreakerOpen(mono, old(lastFailureAt)) then old(keys)[jti := RevokedUntil(now, exp)]
                      else old(keys)
      ensures lastFailureAt == if ok && !BreakerOpen(mono, old(lastFailureAt)) then 0.0 else old(lastFailureAt)
    {
      if jti == "" || exp == 0 { return false; }
      if BreakerOpen(mono, lastFailureAt) { return true; }
      keys := keys[jti := RevokedUntil(now, exp)];
      lastFailureAt := 0.0;
      return true;
    }
  }

  // ---- Tokens ------------------------------------------------------------------------

  datatype Kind = Access | Refresh

  /** The claims of a signed token; a signature checks exactly when the token was issued. */
  datatype Token = Token(sub: string, kind: Kind, jti: string, iat: int, exp: int)

  function CreateToken(sub: string, minutes: nat, kind: Kind, jti: string, now: real): Token {
    Token(sub, kind, jti, now.Floor, now.Floor + 60 * minutes)
  }

  datatype User = User(suspended: bool, suspendedAt: Option<int>)

  datatype AuthError = Expired | BadSignature | WrongKind | NoSubject | Revoked | NoUser | Suspended | IssuedBeforeSuspension

  /** Tokens by jti: uuids are unique. */
  type Issued = map<string, Token>

  predicate Signed(issued: Issued, t: Token) {
    t.jti in issued && issued[t.jti] == t
  }

  function Decode(issued: Issued, t: Token, now: real): Result<Token, AuthError> {
    if !Signed(issued, t) then Err(BadSignature)
    else if t.exp as real <= now then Err(Expired)
    else Ok(t)
  }

  function EnforceNotSuspended(u: User, iat: int): Option<AuthError> {
    if u.suspended then Some(Suspended)
    else if u.suspendedAt.Some? && iat < u.suspendedAt.value then Some(IssuedBeforeSuspension)
    else None
  }

  /** `get_current_user`, with `revoked` the blacklist's answer for the token's jti. */
  function CurrentUser(issued: Issued, t: Token, revoked: bool, user: Option<User>, now: real): Result<string, AuthError> {
    var decoded := Decode(issued, t, now);
    if decoded.Err? then Err(decoded.error)
    else if t.kind != Access then Err(WrongKind)
    else if t.jti != "" && revoked then Err(Revoked)
    else if t.sub == "" then Err(NoSubject)
    else if user.None? then Err(NoUser)
    else
      var stop := EnforceNotSuspended(user.value, t.iat);
      if stop.Some? then Err(stop.value) else Ok(t.sub)
  }

  /** Accepted means: signed, unexpired, an access token, not revoked, of a user in good
      standing since before it was issued. */
  lemma AcceptedMeans(issued: Issued, t: Token, revoked: bool, user: Option<User>, now: real)
    ensures CurrentUser(issued, t, revoked, user, now).Ok? <==>
              && Signed(issued, t) && now < t.exp as real && t.kind == Access && t.sub != ""
              && !(t.jti != "" && revoked)
              && user.Some? && !user.value.suspended
              && (user.value.suspendedAt.Some? ==> user.value.suspendedAt.value <= t.iat)
  {
  }

  /** Of the checks that fail the first one gives the error. */
  lemma WhyTurnedDown(issued: Issued, t: Token, revoked: bool, user: Option<User>, now: real)
    ensures var r := CurrentUser(issued, t, revoked, user, now);
            var live := Signed(issued, t) && now < t.exp as real;
            && (r == Err(BadSignature) <==> !Signed(issued, t))
            && (r == Err(Expired) <==> Signed(issued, t) && t.exp as real <= now)
            && (r == Err(WrongKind) <==> live && t.kind == Refresh)
            && (r == Err(Revoked) <==> live && t.kind == Access && t.jti != "" && revoked)
            && (r == Err(NoSubject) <==> live && t.kind == Access && !(t.jti != "" && revoked) && t.sub == "")
            && (r == Err(NoUser) <==> live && t.kind == Access && !(t.jti != "" && revoked) && t.sub != "" && user.None?)
            && (r == Err(Suspended) <==>
                  live && t.kind == Access && !(t.jti != "" && revoked) && t.sub != "" && user.Some? && user.value.suspended)
            && (r == Err(IssuedBeforeSuspension) <==>
                  && live && t.kind == Access && !(t.jti != "" && revoked) && t.sub != "" && user.Some?
                  && !user.value.suspended && user.value.suspendedAt.Some? && t.iat < user.value.suspendedAt.value)
            && (r.Ok? ==> r.value == t.sub)
  {
  }

  // ---- What rotation keeps -----------------------------------------------------------

  /** The authentication state. History, which no operation reads to decide anything:
      `chain` gives the login a refresh token descends from, `newest` the last refresh
      token of a login, `spent` the refresh tokens exchanged so far. */
  datatype World = World(
    now: real,
    issued: Issued,
    keys: map<string, real>,
    chain: map<string, nat>,
    newest: map<nat, string>,
    spent: seq<string>)

  /** The blacklist entry of an issued token lasts at least as long as the token. */
  predicate Covered(w: World, jti: string) {
    jti in w.issued && jti in w.keys && w.issued[jti].exp as real <= w.keys[jti]
  }

  /** A refresh token that would be exchanged if presented now. */
  predicate Spendable(w: World, t: Token) {
    Signed(w.issued, t) && t.kind == Refresh && w.now < t.exp as real && !Listed(w.keys, t.jti, w.now)
  }

  ghost predicate Inv(w: World) {
    && w.now >= 0.0
    && (forall j | j in w.issued :: w.issued[j].jti == j && j != "" && w.issued[j].exp != 0)
    && (forall j | j in w.keys :: Covered(w, j))
    && (forall j | j in w.spent :: Covered(w, j))
    && (forall i, j | 0 <= i < j < |w.spent| :: w.spent[i] != w.spent[j])
    && (forall j | j in w.issued && w.issued[j].kind == Refresh ::
          j in w.chain && w.chain[j] in w.newest && (Covered(w, j) || w.newest[w.chain[j]] == j))
  }

  /** The uuids of a new pair. */
  predicate FreshPair(w: World, a: string, r: string) {
    a != "" && r != "" && a != r && a !in w.issued && r !in w.issued
  }

  function NewAccess(w: World, sub: string, a: string): Token {
    CreateToken(sub, ACCESS_MINUTES, Access, a, w.now)
  }

  function NewRefresh(w: World, sub: string, r: string): Token {
    CreateToken(sub, REFRESH_DAYS * 24 * 60, Refresh, r, w.now)
  }

  function Issue(w: World, sub: string, a: string, r: string, login: nat): World {
    w.(issued := w.issued[a := NewAccess(w, sub, a)][r := NewRefresh(w, sub, r)],
       chain := w.chain[r := login], newest := w.newest[login := r])
  }

  function Revoke(w: World, t: Token): World {
    w.(keys := w.keys[t.jti := RevokedUntil(w.now, t.exp)])
  }

  predicate Exchanges(w: World, t: Token, user: Option<User>) {
    Spendable(w, t) && t.sub != "" && user.Some? && EnforceNotSuspended(user.value, t.iat).None?
  }

  /** A refresh: a token that passes is revoked and followed by a new pair. */
  function Exchange(w: World, t: Token, user: Option<User>, a: string, r: string): World {
    if !Exchanges(w, t, user) then w
    else Issue(Revoke(w, t).(spent := w.spent + [t.jti]), t.sub, a, r, if t.jti in w.chain then w.chain[t.jti] else 0)
  }

  function LogOut(w: World, access: Token, refresh: Option<Token>): World {
    if Decode(w.issued, access, w.now).Err? then w
    else if refresh.Some? && Signed(w.issued, refresh.value) then Revoke(Revoke(w, access), refresh.value)
    else Revoke(w, access)
  }

  lemma IssueKeepsInv(w: World, sub: string, a: string, r: string, login: nat)
    requires Inv(w) && FreshPair(w, a, r)
    requires forall j | j in w.issued && w.issued[j].kind == Refresh && w.chain[j] == login :: Covered(w, j)
    ensures Inv(Issue(w, sub, a, r, login))
    ensures forall j | Covered(w, j) :: Covered(Issue(w, sub, a, r, login), j)
  {
  }

  lemma RevokeKeepsInv(w: World, t: Token)
    requires Inv(w) && Signed(w.issued, t)
    ensures Inv(Revoke(w, t)) && Covered(Revoke(w, t), t.jti)
    ensures forall j | Covered(w, j) :: Covered(Revoke(w, t), j)
  {
    RevocationReachesExpiry(w.now, t.exp);
  }

  lemma ExchangeKeepsInv(w: World, t: Token, user: Option<User>, a: string, r: string)
    requires Inv(w) && FreshPair(w, a, r)
    ensures Inv(Exchange(w, t, user, a, r))
    ensures forall j | Covered(w, j) :: Covered(Exchange(w, t, user, a, r), j)
  {
    if Exchanges(w, t, user) {
      RevokeKeepsInv(w, t);
      var u := Revoke(w, t).(spent := w.spent + [t.jti]);
      assert Inv(u) by { assert t.jti !in w.spent; }
      assert forall j | Covered(w, j) :: Covered(u, j);
      IssueKeepsInv(u, t.sub, a, r, w.chain[t.jti]);
    }
  }

  lemma LogOutKeepsInv(w: World, access: Token, refresh: Option<Token>)
    requires Inv(w)
    ensures Inv(LogOut(w, access, refresh))
    ensures forall j | Covered(w, j) :: Covered(LogOut(w, access, refresh), j)
  {
    if Decode(w.issued, access, w.now).Ok? {
      RevokeKeepsInv(w, access);
      if refresh.Some? && Signed(w.issued, refresh.value) { RevokeKeepsInv(Revoke(w, access), refresh.value); }
    }
  }

  /** A refresh goes through exactly when the token is signed, a refresh token, unexpired,
      not listed, names a user, and that user exists, is not suspended and was not
      suspended after the token was issued. */
  lemma ExchangesMeans(w: World, t: Token, user: Option<User>)
    ensures Exchanges(w, t, user) <==>
              && Signed(w.issued, t) && t.kind == Refresh && w.now < t.exp as real
              && !(t.jti in w.keys && w.now < w.keys[t.jti])
              && t.sub != ""
              && user.Some? && !user.value.suspended
              && (user.value.suspendedAt.Some? ==> user.value.suspendedAt.value <= t.iat)
  {
  }

  // ---- Runs ----------------------------------------------------------------------------

  /** One call at a time; `user` is what the user table says at that moment. */
  datatype Step =
    | Pass(elapsed: real)
    | Login(sub: string, a: string, r: string, login: nat)
    | Refreshing(t: Token, user: Option<User>, a: string, r: string)
    | LoggingOut(access: Token, refresh: Option<Token>)

  function Next(w: World, step: Step): Option<World> {
    match step
    case Pass(elapsed) => if elapsed >= 0.0 then Some(w.(now := w.now + elapsed)) else None
    case Login(sub, a, r, login) =>
      if FreshPair(w, a, r) && login !in w.newest then Some(Issue(w, sub, a, r, login)) else None
    case Refreshing(t, user, a, r) => if FreshPair(w, a, r) then Some(Exchange(w, t, user, a, r)) else None
    case LoggingOut(access, refresh) => Some(LogOut(w, access, refresh))
  }

  ghost predicate IsRun(steps: seq<Step>, states: seq<World>) {
    && |states| == |steps| + 1
    && states[0].now >= 0.0
    && states[0] == World(states[0].now, map[], map[], map[], map[], [])
    && forall i | 0 <= i < |steps| :: Next(states[i], steps[i]) == Some(states[i + 1])
  }

  lemma StepKeepsInv(w: World, step: Step, v: World)
    requires Inv(w) && Next(w, step) == Some(v)
    ensures Inv(v) && v.now >= w.now
    ensures forall j | Covered(w, j) :: Covered(v, j) && v.issued[j] == w.issued[j]
  {
    match step
    case Pass(_) =>
    case Login(sub, a, r, login) => IssueKeepsInv(w, sub, a, r, login);
    case Refreshing(t, user, a, r) => ExchangeKeepsInv(w, t, user, a, r);
    case LoggingOut(access, refresh) => LogOutKeepsInv(w, access, refresh);
  }

  lemma {:induction false} RunKeepsInv(steps: seq<Step>, states: seq<World>, i: nat)
    requires IsRun(steps, states) && i < |states|
    ensures Inv(states[i])
  {
    if i > 0 {
      RunKeepsInv(steps, states, i - 1);
      StepKeepsInv(states[i - 1], steps[i - 1], states[i]);
    }
  }

  lemma {:induction false} StaysCovered(steps: seq<Step>, states: seq<World>, i: nat, k: nat, jti: string)
    requires IsRun(steps, states) && i <= k < |states| && Covered(states[i], jti)
    ensures Covered(states[k], jti) && states[k].issued[jti] == states[i].issued[jti]
  {
    if k > i {
      StaysCovered(steps, states, i, k - 1, jti);
      RunKeepsInv(steps, states, k - 1);
      StepKeepsInv(states[k - 1], steps[k - 1], states[k]);
    }
  }

  /** A covered token is turned down: its entry is still listed or it has expired. */
  lemma CoveredStaysOut(w: World, t: Token, user: Option<User>)
    requires Signed(w.issued, t) && Covered(w, t.jti) && t.jti != ""
    ensures Listed(w.keys, t.jti, w.now) || Decode(w.issued, t, w.now) == Err(Expired)
    ensures CurrentUser(w.issued, t, Listed(w.keys, t.jti, w.now), user, w.now).Err?
    ensures !Spendable(w, t)
  {
  }

  /** Revocation has no gap: once a logout has gone through, both tokens are turned down at
      every later instant of every run, as access tokens and as refresh tokens. */
  lemma RevokedStaysOut(steps: seq<Step>, states: seq<World>, i: nat, k: nat, t: Token, user: Option<User>)
    requires IsRun(steps, states) && i < |steps| && i < k < |states| && steps[i].LoggingOut?
    requires Decode(states[i].issued, steps[i].access, states[i].now).Ok?
    requires t == steps[i].access || (steps[i].refresh == Some(t) && Signed(states[i].issued, t))
    ensures CurrentUser(states[k].issued, t, Listed(states[k].keys, t.jti, states[k].now), user, states[k].now).Err?
    ensures !Spendable(states[k], t)
  {
    RunKeepsInv(steps, states, i);
    var w := states[i];
    assert Next(w, steps[i]) == Some(states[i + 1]);
    RevokeKeepsInv(w, steps[i].access);
    if steps[i].refresh.Some? && Signed(w.issued, steps[i].refresh.value) {
      RevokeKeepsInv(Revoke(w, steps[i].access), steps[i].refresh.value);
    }
    StaysCovered(steps, states, i + 1, k, t.jti);
    CoveredStaysOut(states[k], t, user);
  }

  /** Rotation spends once: of two refresh calls with the same token, the later one changes
      nothing if the earlier one succeeded. */
  lemma ExchangedOnce(steps: seq<Step>, states: seq<World>, i: nat, k: nat)
    requires IsRun(steps, states) && i < k < |steps| && steps[i].Refreshing? && steps[k].Refreshing?
    requires steps[i].t == steps[k].t && Exchanges(states[i], steps[i].t, steps[i].user)
    ensures !Exchanges(states[k], steps[k].t, steps[k].user) && states[k + 1] == states[k]
  {
    var t := steps[i].t;
    RunKeepsInv(steps, states, i);
    assert Next(states[i], steps[i]) == Some(states[i + 1]);
    assert Next(states[k], steps[k]) == Some(states[k + 1]);
    RunKeepsInv(steps, states, i + 1);
    assert states[i + 1].spent[|states[i].spent|] == t.jti;
    StaysCovered(steps, states, i + 1, k, t.jti);
    CoveredStaysOut(states[k], t, None);
  }

  /** At any point of any run a login has at most one refresh token that could be
      exchanged, the newest one, and it was never exchanged before. */
  lemma OneSpendablePerLogin(steps: seq<Step>, states: seq<World>, i: nat, t: Token, u: Token)
    requires IsRun(steps, states) && i < |states| && Spendable(states[i], t)
    ensures t.jti in states[i].chain && t.jti !in states[i].spent
    ensures Spendable(states[i], u) && u.jti in states[i].chain && states[i].chain[t.jti] == states[i].chain[u.jti] ==> t == u
  {
    RunKeepsInv(steps, states, i);
    assert !Covered(states[i], t.jti);
  }

  // ---- The service -------------------------------------------------------------------

  class AuthService {
    const blacklist: Blacklist
    var now: real
    var issued: Issued
    ghost var chain: map<string, nat>
    ghost var newest: map<nat, string>
    ghost var spent: seq<string>

    ghost function Now(): World
      reads this, blacklist
    {
      World(now, issued, blacklist.keys, chain, newest, spent)
    }

    /** Besides the invariant: the breaker has not tripped. */
    ghost predicate Valid()
      reads this, blacklist
    {
      blacklist.lastFailureAt == 0.0 && Inv(Now())
    }

    constructor (now: real)
      requires now >= 0.0
      ensures Valid() && Now() == World(now, map[], map[], map[], map[], [])
      ensures fresh(blacklist)
    {
      this.now := now;
      blacklist := new Blacklist();
      issued, chain, newest, spent := map[], map[], map[], [];
    }

    method Wait(elapsed: real)
      requires Valid() && elapsed >= 0.0
      modifies this`now
      ensures Valid() && Some(Now()) == Next(old(Now()), Pass(elapsed))
    {
      now := now + elapsed;
    }

    /** The pair of tokens of a login, or of a refresh that has just spent its own token. */
    method IssuePair(sub: string, accessJti: string, refreshJti: string, ghost login: nat)
      returns (a: Token, r: Token)
      requires Valid() && FreshPair(Now(), accessJti, refreshJti)
      requires forall j | j in issued && issued[j].kind == Refresh && chain[j] == login :: Covered(Now(), j)
      modifies this`issued, this`chain, this`newest
      ensures Valid() && Now() == Issue(old(Now()), sub, accessJti, refreshJti, login)
      ensures issued[accessJti] == a && issued[refreshJti] == r && Spendable(Now(), r)
      ensures a == Token(sub, Access, accessJti, now.Floor, now.Floor + 3600)
      ensures r == Token(sub, Refresh, refreshJti, now.Floor, now.Floor + 7 * 86400)
    {
      IssueKeepsInv(Now(), sub, accessJti, refreshJti, login);
      a := CreateToken(sub, ACCESS_MINUTES, Access, accessJti, now);
      r := CreateToken(sub, REFRESH_DAYS * 24 * 60, Refresh, refreshJti, now);
      issued := issued[accessJti := a][refreshJti := r];
      chain := chain[refreshJti := login];
      newest := newest[login := refreshJti];
    }

    /** The checks of `refresh_access_token`, in its order. */
    method CheckRefresh(t: Token, user: Option<User>, mono: real) returns (stop: Option<AuthError>)
      requires Valid() && mono >= COOLDOWN
      modifies blacklist`lastFailureAt
      ensures Valid() && Now() == old(Now())
      ensures stop.None? <==> Exchanges(Now(), t, user)
      ensures stop == Some(BadSignature) <==> !Signed(issued, t)
      ensures stop == Some(Expired) <==> Signed(issued, t) && t.exp as real <= now
      ensures stop == Some(WrongKind) <==> Signed(issued, t) && now < t.exp as real && t.kind == Access
      ensures stop == Some(Revoked) <==>
                Signed(issued, t) && now < t.exp as real && t.kind == Refresh && t.sub != "" && Listed(blacklist.keys, t.jti, now)
    {
      var decoded := Decode(issued, t, now);
      if decoded.Err? { return Some(decoded.error); }
      if t.kind != Refresh { return Some(WrongKind); }
      if t.sub == "" { return Some(NoSubject); }
      var isRevoked := blacklist.IsRevoked(t.jti, now, mono);
      if t.jti != "" && isRevoked { return Some(Revoked); }
      if user.None? { return Some(NoUser); }
      return EnforceNotSuspended(user.value, t.iat);
    }

    /** `refresh_access_token` with its two uuids; the monotonic clock is past the
        breaker's cooldown. A success spends the token for good. */
    method RefreshTokens(t: Token, user: Option<User>, mono: real, accessJti: string, refreshJti: string)
      returns (pair: Result<(Token, Token), AuthError>)
      requires Valid() && mono >= COOLDOWN && FreshPair(Now(), accessJti, refreshJti)
      modifies this`issued, this`chain, this`newest, this`spent, blacklist
      ensures Valid() && Now() == Exchange(old(Now()), t, user, accessJti, refreshJti)
      ensures pair.Ok? <==> Exchanges(old(Now()), t, user)
      ensures pair.Ok? <==>
                && Signed(old(issued), t) && t.kind == Refresh && now < t.exp as real
                && !(t.jti in old(blacklist.keys) && now < old(blacklist.keys)[t.jti])
                && t.sub != "" && user.Some? && !user.value.suspended
                && (user.value.suspendedAt.Some? ==> user.value.suspendedAt.value <= t.iat)
      ensures pair.Ok? ==>
                && t.jti !in old(spent) && t.jti in spent
                && issued[accessJti] == pair.value.0 && issued[refreshJti] == pair.value.1
                && pair.value.0 == Token(t.sub, Access, accessJti, now.Floor, now.Floor + 3600)
                && pair.value.1 == Token(t.sub, Refresh, refreshJti, now.Floor, now.Floor + 7 * 86400)
                && Spendable(Now(), pair.value.1)
    {
      ExchangesMeans(Now(), t, user);
      var stop := CheckRefresh(t, user, mono);
      if stop.Some? { return Err(stop.value); }
      var a, r := Rotate(t, user, mono, accessJti, refreshJti);
      return Ok((a, r));
    }

    /** The token that passed is spent, and a new pair follows it. */
    method Rotate(t: Token, ghost user: Option<User>, mono: real, accessJti: string, refreshJti: string)
      returns (a: Token, r: Token)
      requires Valid() && mono >= COOLDOWN && FreshPair(Now(), accessJti, refreshJti) && Exchanges(Now(), t, user)
      modifies this`issued, this`chain, this`newest, this`spent, blacklist
      ensures Valid() && Now() == Exchange(old(Now()), t, user, accessJti, refreshJti)
      ensures t.jti !in old(spent) && t.jti in spent
      ensures issued[accessJti] == a && issued[refreshJti] == r && Spendable(Now(), r)
      ensures a == Token(t.sub, Access, accessJti, now.Floor, now.Floor + 3600)
      ensures r == Token(t.sub, Refresh, refreshJti, now.Floor, now.Floor + 7 * 86400)
    {
      ExchangeKeepsInv(Now(), t, user, accessJti, refreshJti);
      RevokeKeepsInv(Now(), t);
      var _ := blacklist.RevokeIfNew(t.jti, t.exp, now, mono);
      spent := spent + [t.jti];
      a, r := IssuePair(t.sub, accessJti, refreshJti, chain[t.jti]);
    }

    /** `logout`: the access token must decode; a refresh token with a good signature is
        revoked too, expired or not. */
    method Logout(access: Token, refresh: Option<Token>, mono: real) returns (done: Option<AuthError>)
      requires Valid() && mono >= COOLDOWN
      modifies blacklist
      ensures Valid() && Now() == LogOut(old(Now()), access, refresh)
      ensures done == (var d := Decode(issued, access, now); if d.Err? then Some(d.error) else None)
      ensures done.None? <==> Signed(issued, access) && now < access.exp as real
      ensures done.None? ==> Covered(Now(), access.jti)
      ensures done.None? && refresh.Some? && Signed(issued, refresh.value) ==> Covered(Now(), refresh.value.jti)
      ensures forall j | j != access.jti && (refresh.Some? ==> j != refresh.value.jti) ::
                j in blacklist.keys <==> j in old(blacklist.keys)
    {
      var decoded := Decode(issued, access, now);
      if decoded.Err? { return Some(decoded.error); }
      RevokeKeepsInv(Now(), access);
      var _ := blacklist.RevokeIfNew(access.jti, access.exp, now, mono);
      if refresh.Some? && Signed(issued, refresh.value) {
        RevokeKeepsInv(Now(), refresh.value);
        var _ := blacklist.RevokeIfNew(refresh.value.jti, refresh.value.exp, now, mono);
      }
      return None;
    }
  }

  /** A login needs uuids not yet used and a login number of its own, a refresh call uuids
      not yet used; time goes on and a logout may come at any moment. */
  lemma EnabledExactlyWhen(w: World, step: Step)
    ensures Next(w, step).Some? <==>
            match step
            case Pass(elapsed) => elapsed >= 0.0
            case Login(_, a, r, login) =>
              a != "" && r != "" && a != r && a !in w.issued && r !in w.issued && login !in w.newest
            case Refreshing(_, _, a, r) => a != "" && r != "" && a != r && a !in w.issued && r !in w.issued
            case LoggingOut(_, _) => true
    ensures step.Pass? && step.elapsed >= 0.0 ==> Next(w, step) == Some(w.(now := w.now + step.elapsed))
    ensures step.Refreshing? && Next(w, step).Some? ==> Next(w, step) == Some(Exchange(w, step.t, step.user, step.a, step.r))
    ensures step.Login? && Next(w, step).Some? ==> Next(w, step) == Some(Issue(w, step.sub, step.a, step.r, step.login))
    ensures step.LoggingOut? ==> Next(w, step) == Some(LogOut(w, step.access, step.refresh))
  {
  }
}
