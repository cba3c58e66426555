/** The session registry: one HASH per jti that expires with the token, and one ZSET per
    user that indexes jtis by expiry and is cleaned only when it is listed. */
module SessionRegistry {
  import opened Wrappers
  import opened Ordering

  datatype Meta = Meta(userAgent: string, ip: string, createdAt: int, deviceLabel: string)

  /** A HASH with its EXPIREAT, in seconds. */
  datatype Hash = Hash(email: string, meta: Meta, exp: int)

  datatype Member = Member(jti: string, score: int)

  datatype SessionInfo = SessionInfo(jti: string, email: string, meta: Meta)

  /** A recorded session, as far as the caller is concerned. */
  datatype Session = Session(email: string, meta: Meta, exp: int)

  predicate Newest(a: SessionInfo, b: SessionInfo) {
    a.meta.createdAt >= b.meta.createdAt
  }

  // ---- ZSET operations: members in (score, jti) order ---------------------------------

  predicate RankLe(a: Member, b: Member) {
    a.score < b.score || (a.score == b.score && StringLe(a.jti, b.jti))
  }

  function ZRem(z: seq<Member>, jti: string): seq<Member> {
    if z == [] then []
    else if z[0].jti == jti then ZRem(z[1..], jti)
    else [z[0]] + ZRem(z[1..], jti)
  }

  function ZAdd(z: seq<Member>, jti: string, score: int): seq<Member> {
    Insert(RankLe, Member(jti, score), ZRem(z, jti))
  }

  function ZRemRangeByScore(z: seq<Member>, lo: int, hi: int): seq<Member> {
    if z == [] then []
    else if lo <= z[0].score <= hi then ZRemRangeByScore(z[1..], lo, hi)
    else [z[0]] + ZRemRangeByScore(z[1..], lo, hi)
  }

  ghost predicate DistinctJtis(z: seq<Member>) {
    forall i, j | 0 <= i < j < |z| :: z[i].jti != z[j].jti
  }

  lemma {:induction false} ZRemMembers(z: seq<Member>, jti: string)
    requires DistinctJtis(z)
    ensures forall m :: m in ZRem(z, jti) <==> m in z && m.jti != jti
    ensures DistinctJtis(ZRem(z, jti))
  {
    if z != [] { ZRemMembers(z[1..], jti); }
  }

  lemma {:induction false} ZRemRangeMembers(z: seq<Member>, lo: int, hi: int)
    requires DistinctJtis(z)
    ensures forall m :: m in ZRemRangeByScore(z, lo, hi) <==> m in z && !(lo <= m.score <= hi)
    ensures DistinctJtis(ZRemRangeByScore(z, lo, hi))
  {
    if z != [] { ZRemRangeMembers(z[1..], lo, hi); }
  }

  lemma {:induction false} InsertDistinct(z: seq<Member>, x: Member)
    requires DistinctJtis(z) && forall m | m in z :: m.jti != x.jti
    ensures DistinctJtis(Insert(RankLe, x, z))
    ensures forall m :: m in Insert(RankLe, x, z) <==> m == x || m in z
  {
    if z != [] && !RankLe(x, z[0]) {
      InsertDistinct(z[1..], x);
      var r := Insert(RankLe, x, z[1..]);
      assert forall i | 0 <= i < |r| :: r[i] in r;
    }
  }

  lemma ZAddMembers(z: seq<Member>, jti: string, score: int)
    requires DistinctJtis(z)
    ensures DistinctJtis(ZAdd(z, jti, score))
    ensures forall m :: m in ZAdd(z, jti, score) <==> m == Member(jti, score) || (m in z && m.jti != jti)
  {
    ZRemMembers(z, jti);
    InsertDistinct(ZRem(z, jti), Member(jti, score));
  }

  /** A ZSET lists its members by score, and by member where scores are equal. */
  ghost predicate InScoreOrder(z: seq<Member>) {
    forall i, j | 0 <= i < j < |z| ::
      z[i].score < z[j].score || (z[i].score == z[j].score && StringLe(z[i].jti, z[j].jti))
  }

  lemma RankTotal()
    ensures IsTotal(RankLe)
  {
    StringLeTotal();
  }

  lemma FirstComesFirst(z: seq<Member>)
    requires z != [] && InScoreOrder(z)
    ensures forall m | m in z[1..] ::
              m in z && (z[0].score < m.score || (z[0].score == m.score && StringLe(z[0].jti, m.jti)))
  {
    forall m | m in z[1..] ensures z[0].score < m.score || (z[0].score == m.score && StringLe(z[0].jti, m.jti)) {
      var k :| 0 <= k < |z[1..]| && z[1..][k] == m;
      assert z[k + 1] == m;
    }
  }

  lemma {:induction false} ZRemOrdered(z: seq<Member>, jti: string)
    requires InScoreOrder(z)
    ensures InScoreOrder(ZRem(z, jti)) && forall m | m in ZRem(z, jti) :: m in z
  {
    if z != [] {
      ZRemOrdered(z[1..], jti);
      FirstComesFirst(z);
    }
  }

  lemma {:induction false} ZRemRangeOrdered(z: seq<Member>, lo: int, hi: int)
    requires InScoreOrder(z)
    ensures InScoreOrder(ZRemRangeByScore(z, lo, hi)) && forall m | m in ZRemRangeByScore(z, lo, hi) :: m in z
  {
    if z != [] {
      ZRemRangeOrdered(z[1..], lo, hi);
      FirstComesFirst(z);
    }
  }

  /** The three ZSET operations keep that order. */
  lemma ScoreOrderKept(z: seq<Member>, jti: string, score: int, lo: int, hi: int)
    requires InScoreOrder(z)
    ensures InScoreOrder(ZAdd(z, jti, score)) && InScoreOrder(ZRem(z, jti)) && InScoreOrder(ZRemRangeByScore(z, lo, hi))
  {
    RankTotal();
    ZRemOrdered(z, jti);
    ZRemRangeOrdered(z, lo, hi);
    var rest := ZRem(z, jti);
    InsertSorts(RankLe, Member(jti, score), rest);
    var out := ZAdd(z, jti, score);
    forall i, j | 0 <= i < j < |out|
      ensures out[i].score < out[j].score || (out[i].score == out[j].score && StringLe(out[i].jti, out[j].jti))
    {
      assert RankLe(out[i], out[j]);
    }
  }

  ghost predicate DistinctInfos(s: seq<SessionInfo>) {
    forall i, j | 0 <= i < j < |s| :: s[i].jti != s[j].jti
  }

  lemma NewestTotal()
    ensures IsTotal(Newest)
  {
  }

  lemma {:induction false} SortKeepsDistinct(s: seq<SessionInfo>)
    requires DistinctInfos(s)
    ensures DistinctInfos(Sort(Newest, s)) && SortedBy(Newest, Sort(Newest, s))
    ensures forall x :: x in Sort(Newest, s) <==> x in s
  {
    NewestTotal();
    SortSorts(Newest, s);
    forall x ensures x in Sort(Newest, s) <==> x in s {
      assert x in multiset(Sort(Newest, s)) <==> x in multiset(s);
    }
    var r := Sort(Newest, s);
    forall i, j | 0 <= i < j < |r| ensures r[i].jti != r[j].jti {
      if r[i].jti == r[j].jti {
        OneInfoPerJti(s, r[i], r[j]);
        TwiceInMultiset(r, i, j);
        OnceInMultiset(s, r[i]);
      }
    }
  }

  lemma OneInfoPerJti(s: seq<SessionInfo>, a: SessionInfo, b: SessionInfo)
    requires DistinctInfos(s) && a in s && b in s && a.jti == b.jti
    ensures a == b
  {
  }

  lemma TwiceInMultiset<T>(s: seq<T>, i: nat, j: nat)
    requires i < j < |s| && s[i] == s[j]
    ensures multiset(s)[s[i]] >= 2
  {
    assert s == s[..j] + [s[j]] + s[j + 1..];
    assert s[..j][i] == s[i];
    assert s[i] in multiset(s[..j]);
  }

  lemma {:induction false} OnceInMultiset(s: seq<SessionInfo>, x: SessionInfo)
    requires DistinctInfos(s)
    ensures multiset(s)[x] <= 1
  {
    if s != [] {
      assert s == [s[0]] + s[1..];
      OnceInMultiset(s[1..], x);
    }
  }

  // ---- Keeping the two structures in step with the sessions ----------------------------

  type Hashes = map<string, Hash>
  type Index = map<string, seq<Member>>
  type Sessions = map<string, Session>

  function LiveHash(hashes: Hashes, now: int, jti: string): Option<Hash> {
    if jti in hashes && now < hashes[jti].exp * 1000 then Some(hashes[jti]) else None
  }

  function LiveSession(sessions: Sessions, now: int, jti: string): Option<Hash> {
    if jti in sessions && now < sessions[jti].exp * 1000
    then Some(Hash(sessions[jti].email, sessions[jti].meta, sessions[jti].exp)) else None
  }

  function MembersOf(index: Index, user: string): seq<Member> {
    if user in index then index[user] else []
  }

  /** A jti's hash is alive exactly while its session should be, and says the same. */
  ghost predicate HashesAgree(hashes: Hashes, sessions: Sessions, now: int) {
    forall jti :: LiveHash(hashes, now, jti) == LiveSession(sessions, now, jti)
  }

  /** Every session belongs to the user its jti was recorded for, in lower case. */
  ghost predicate Owned(lower: string -> string, sessions: Sessions, owners: map<string, string>) {
    forall jti | jti in sessions ::
      && jti in owners && owners[jti] == sessions[jti].email
      && lower(sessions[jti].email) == sessions[jti].email
  }

  /** Live sessions are indexed under their user. */
  ghost predicate Indexed(index: Index, sessions: Sessions, now: int) {
    forall jti | LiveSession(sessions, now, jti).Some? ::
      Member(jti, sessions[jti].exp * 1000) in MembersOf(index, sessions[jti].email)
  }

  /** An index lists only jtis of its user, each once. */
  ghost predicate IndexSound(index: Index, owners: map<string, string>) {
    forall user | user in index ::
      && DistinctJtis(index[user])
      && forall m | m in index[user] :: m.jti in owners && owners[m.jti] == user
  }

  ghost predicate Inv(lower: string -> string, now: int, hashes: Hashes, index: Index, sessions: Sessions,
                      owners: map<string, string>)
  {
    HashesAgree(hashes, sessions, now) && Owned(lower, sessions, owners)
    && Indexed(index, sessions, now) && IndexSound(index, owners)
  }

  /** Time passing ends a hash and its session at the same instant. */
  lemma WaitKeepsInv(lower: string -> string, now: int, later: int, hashes: Hashes, index: Index,
                     sessions: Sessions, owners: map<string, string>)
    requires Inv(lower, now, hashes, index, sessions, owners) && now <= later
    ensures Inv(lower, later, hashes, index, sessions, owners)
  {
    forall jti ensures LiveHash(hashes, later, jti) == LiveSession(sessions, later, jti) {
      assert LiveHash(hashes, now, jti) == LiveSession(sessions, now, jti);
    }
    forall jti | LiveSession(sessions, later, jti).Some?
      ensures Member(jti, sessions[jti].exp * 1000) in MembersOf(index, sessions[jti].email)
    {
      assert LiveSession(sessions, now, jti).Some?;
    }
  }

  lemma RecordKeepsInv(lower: string -> string, now: int, hashes: Hashes, index: Index, sessions: Sessions,
                       owners: map<string, string>, jti: string, s: Session)
    requires Inv(lower, now, hashes, index, sessions, owners)
    requires lower(s.email) == s.email && (jti in owners ==> owners[jti] == s.email)
    ensures Inv(lower, now, hashes[jti := Hash(s.email, s.meta, s.exp)],
                index[s.email := ZAdd(MembersOf(index, s.email), jti, s.exp * 1000)],
                sessions[jti := s], owners[jti := s.email])
  {
    var z := MembersOf(index, s.email);
    ZAddMembers(z, jti, s.exp * 1000);
    var index', sessions' := index[s.email := ZAdd(z, jti, s.exp * 1000)], sessions[jti := s];
    forall k ensures LiveHash(hashes[jti := Hash(s.email, s.meta, s.exp)], now, k) == LiveSession(sessions', now, k) {
      assert LiveHash(hashes, now, k) == LiveSession(sessions, now, k);
    }
    forall k | LiveSession(sessions', now, k).Some?
      ensures Member(k, sessions'[k].exp * 1000) in MembersOf(index', sessions'[k].email)
    {
      if k != jti { assert LiveSession(sessions, now, k).Some?; }
    }
  }

  /** The index after an unregister: cleaned only while the hash could still tell the user. */
  function Unindexed(lower: string -> string, index: Index, found: Option<Hash>, jti: string): Index {
    if found.None? || found.value.email == "" then index
    else
      var key := lower(found.value.email);
      index[key := ZRem(MembersOf(index, key), jti)]
  }

  lemma UnregisterKeepsInv(lower: string -> string, now: int, hashes: Hashes, index: Index, sessions: Sessions,
                           owners: map<string, string>, jti: string)
    requires Inv(lower, now, hashes, index, sessions, owners)
    ensures Inv(lower, now, hashes - {jti}, Unindexed(lower, index, LiveHash(hashes, now, jti), jti),
                sessions - {jti}, owners)
  {
    var found := LiveHash(hashes, now, jti);
    assert found == LiveSession(sessions, now, jti);
    var index', sessions' := Unindexed(lower, index, found, jti), sessions - {jti};
    if found.Some? { ZRemMembers(MembersOf(index, lower(found.value.email)), jti); }
    forall k ensures LiveHash(hashes - {jti}, now, k) == LiveSession(sessions', now, k) {
      assert LiveHash(hashes, now, k) == LiveSession(sessions, now, k);
    }
    forall k | LiveSession(sessions', now, k).Some?
      ensures Member(k, sessions'[k].exp * 1000) in MembersOf(index', sessions'[k].email)
    {
      assert LiveSession(sessions, now, k).Some?;
    }
  }

  /** Dropping index members that have no live session changes nothing that matters. */
  lemma CleanKeepsInv(lower: string -> string, now: int, hashes: Hashes, index: Index, sessions: Sessions,
                      owners: map<string, string>, user: string, z: seq<Member>)
    requires Inv(lower, now, hashes, index, sessions, owners)
    requires DistinctJtis(z) && forall m | m in z :: m in MembersOf(index, user)
    requires forall m | m in MembersOf(index, user) && m !in z ::
               LiveSession(sessions, now, m.jti).None? || m.score != sessions[m.jti].exp * 1000
    ensures Inv(lower, now, hashes, index[user := z], sessions, owners)
  {
    forall k | LiveSession(sessions, now, k).Some?
      ensures Member(k, sessions[k].exp * 1000) in MembersOf(index[user := z], sessions[k].email)
    {
      assert Member(k, sessions[k].exp * 1000) in MembersOf(index, sessions[k].email);
    }
  }

  /** What listing an index shows: the members whose hash is alive. */
  function Listed(hashes: Hashes, now: int, z: seq<Member>): seq<SessionInfo> {
    if z == [] then []
    else
      var last := z[|z| - 1].jti;
      var data := LiveHash(hashes, now, last);
      Listed(hashes, now, z[..|z| - 1])
      + if data.Some? then [SessionInfo(last, data.value.email, data.value.meta)] else []
  }

  ghost predicate Shows(hashes: Hashes, now: int, z: seq<Member>, x: SessionInfo) {
    && LiveHash(hashes, now, x.jti).Some?
    && x == SessionInfo(x.jti, LiveHash(hashes, now, x.jti).value.email, LiveHash(hashes, now, x.jti).value.meta)
    && exists m :: m in z && m.jti == x.jti
  }

  lemma {:induction false} ListedMembers(hashes: Hashes, now: int, z: seq<Member>)
    requires DistinctJtis(z)
    ensures DistinctInfos(Listed(hashes, now, z))
    ensures forall x :: x in Listed(hashes, now, z) <==> Shows(hashes, now, z, x)
  {
    if z != [] {
      var rest, last := z[..|z| - 1], z[|z| - 1];
      ListedMembers(hashes, now, rest);
      forall x ensures x in Listed(hashes, now, z) <==> Shows(hashes, now, z, x) {
        if Shows(hashes, now, z, x) && x.jti != last.jti {
          var m :| m in z && m.jti == x.jti;
          assert m in rest;
        }
        if Shows(hashes, now, rest, x) {
          var m :| m in rest && m.jti == x.jti;
          assert m in z;
        }
      }
      var before := Listed(hashes, now, rest);
      forall i | 0 <= i < |before| ensures before[i].jti != last.jti {
        assert before[i] in before;
        var m :| m in rest && m.jti == before[i].jti;
      }
    }
  }

  /** Listing a purged index shows the user's live sessions and nothing else. */
  lemma ListedIsActive(lower: string -> string, now: int, hashes: Hashes, index: Index, sessions: Sessions,
                       owners: map<string, string>, user: string)
    requires Inv(lower, now, hashes, index, sessions, owners)
    ensures var out := Listed(hashes, now, MembersOf(index, user));
            && DistinctInfos(out)
            && (forall x | x in out ::
                  && LiveSession(sessions, now, x.jti).Some? && sessions[x.jti].email == user
                  && x == SessionInfo(x.jti, user, sessions[x.jti].meta))
            && (forall jti | LiveSession(sessions, now, jti).Some? && sessions[jti].email == user ::
                  exists n :: 0 <= n < |out| && out[n].jti == jti)
  {
    var z := MembersOf(index, user);
    var out := Listed(hashes, now, z);
    ListedMembers(hashes, now, z);
    forall x | x in out
      ensures LiveSession(sessions, now, x.jti).Some? && sessions[x.jti].email == user
      ensures x == SessionInfo(x.jti, user, sessions[x.jti].meta)
    {
      assert Shows(hashes, now, z, x);
      assert LiveHash(hashes, now, x.jti) == LiveSession(sessions, now, x.jti);
    }
    forall jti | LiveSession(sessions, now, jti).Some? && sessions[jti].email == user
      ensures exists n :: 0 <= n < |out| && out[n].jti == jti
    {
      var x := SessionInfo(jti, user, sessions[jti].meta);
      assert LiveHash(hashes, now, jti) == LiveSession(sessions, now, jti);
      assert Member(jti, sessions[jti].exp * 1000) in z;
      assert Shows(hashes, now, z, x);
      assert x in out;
    }
  }

  // ---- The registry ------------------------------------------------------------------

  class Registry {
    const lower: string -> string
    var now: int                              // epoch milliseconds
    var hashes: Hashes
    var index: Index
    ghost var sessions: Sessions              // recorded and not unregistered
    ghost var owners: map<string, string>     // the user each jti was ever recorded for

    ghost predicate Valid()
      reads this
    {
      Inv(lower, now, hashes, index, sessions, owners)
    }

    /** The sessions a user should see now. */
    ghost predicate Active(email: string, jti: string)
      reads this
    {
      jti in sessions && sessions[jti].email == lower(email) && now < sessions[jti].exp * 1000
    }

    constructor (lower: string -> string, now: int)
      ensures Valid() && this.lower == lower && this.now == now && sessions == map[] && owners == map[]
    {
      this.lower, this.now := lower, now;
      hashes, index, sessions, owners := map[], map[], map[], map[];
    }

    method Wait(elapsed: nat)
      requires Valid()
      modifies this`now
      ensures Valid() && now == old(now) + elapsed
    {
      WaitKeepsInv(lower, now, now + elapsed, hashes, index, sessions, owners);
      now := now + elapsed;
    }

    /** Each jti is used under one e-mail only; lower-casing twice is lower-casing once. */
    method RecordSession(email: string, jti: string, exp: int, userAgent: string, ip: string, deviceLabel: string)
      requires Valid()
      requires jti in owners ==> owners[jti] == lower(email)
      requires lower(lower(email)) == lower(email)
      modifies this`hashes, this`index, this`sessions, this`owners
      ensures Valid()
      ensures email == "" || jti == "" || exp == 0 ==> unchanged(this)
      ensures email != "" && jti != "" && exp != 0 ==>
                && sessions == old(sessions)[jti := Session(lower(email), Meta(userAgent, ip, now, deviceLabel), exp)]
                && owners == old(owners)[jti := lower(email)]
    {
      if email == "" || jti == "" || exp == 0 { return; }
      var user := lower(email);
      var meta := Meta(userAgent, ip, now, deviceLabel);
      RecordKeepsInv(lower, now, hashes, index, sessions, owners, jti, Session(user, meta, exp));
      hashes := hashes[jti := Hash(user, meta, exp)];
      index := index[user := ZAdd(MembersOf(index, user), jti, exp * 1000)];
      sessions := sessions[jti := Session(user, meta, exp)];
      owners := owners[jti := user];
    }

    method UnregisterSession(jti: string)
      requires Valid()
      modifies this`hashes, this`index, this`sessions
      ensures Valid() && sessions == old(sessions) - if jti == "" then {} else {jti}
      ensures jti != "" ==> LiveHash(hashes, now, jti).None?
      ensures var found := LiveHash(old(hashes), now, jti);
              jti != "" && found.Some? && found.value.email != "" ==>
                forall m | m in MembersOf(index, lower(found.value.email)) :: m.jti != jti
    {
      if jti == "" { return; }
      UnregisterKeepsInv(lower, now, hashes, index, sessions, owners, jti);
      var found := LiveHash(hashes, now, jti);
      if found.Some? { ZRemMembers(MembersOf(index, lower(found.value.email)), jti); }
      hashes := hashes - {jti};
      if found.Some? && found.value.email != "" {
        var key := lower(found.value.email);
        index := index[key := ZRem(MembersOf(index, key), jti)];
      }
      sessions := sessions - {jti};
    }

    /** Exactly the recorded, not unregistered, unexpired sessions of the user, each once,
        with what was recorded about it, newest first. */
    method ListSessions(email: string) returns (out: seq<SessionInfo>)
      requires Valid()
      modifies this`index
      ensures Valid()
      ensures email == "" ==> out == []
      ensures DistinctInfos(out) && SortedBy(Newest, out)
      ensures email != "" ==> forall jti :: Active(email, jti) <==> exists i :: 0 <= i < |out| && out[i].jti == jti
      ensures forall x | x in out ::
                Active(email, x.jti) && x == SessionInfo(x.jti, lower(email), sessions[x.jti].meta)
    {
      if email == "" { return []; }
      var user := lower(email);
      PurgeIndex(user);
      var jtis := MembersOf(index, user);
      ListedIsActive(lower, now, hashes, index, sessions, owners, user);
      out := Collect(user, jtis);
      ghost var found := out;
      SortKeepsDistinct(out);
      out := Sort(Newest, out);
      forall jti | Active(email, jti) ensures exists i :: 0 <= i < |out| && out[i].jti == jti {
        assert LiveSession(sessions, now, jti).Some?;
        var n :| 0 <= n < |found| && found[n].jti == jti;
        assert found[n] in out;
      }
      forall i | 0 <= i < |out| ensures Active(email, out[i].jti) {
        assert out[i] in out;
      }
    }

    method PurgeIndex(user: string)
      requires Valid()
      modifies this`index
      ensures Valid() && user in index
    {
      var z := MembersOf(index, user);
      ZRemRangeMembers(z, 0, now);
      CleanKeepsInv(lower, now, hashes, index, sessions, owners, user, ZRemRangeByScore(z, 0, now));
      index := index[user := ZRemRangeByScore(z, 0, now)];
    }

    /** The loop over the index: a jti without a hash is removed from it, any other listed. */
    method Collect(user: string, jtis: seq<Member>) returns (out: seq<SessionInfo>)
      requires Valid() && user in index && jtis == index[user]
      modifies this`index
      ensures Valid() && out == Listed(hashes, now, jtis)
    {
      out := [];
      for i := 0 to |jtis|
        invariant Valid() && user in index
        invariant out == Listed(hashes, now, jtis[..i])
      {
        var jti := jtis[i].jti;
        assert jtis[..i + 1][..i] == jtis[..i];
        var data := LiveHash(hashes, now, jti);
        if data.None? {
          assert LiveSession(sessions, now, jti).None?;
          ZRemMembers(index[user], jti);
          CleanKeepsInv(lower, now, hashes, index, sessions, owners, user, ZRem(index[user], jti));
          index := index[user := ZRem(index[user], jti)];
        } else {
          out := out + [SessionInfo(jti, data.value.email, data.value.meta)];
        }
      }
      assert jtis[..|jtis|] == jtis;
    }
  }
}
