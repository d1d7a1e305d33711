/**
 Session tokens and their revocation as timed steps: issue, logout, rotation and
 sign-out-everywhere, over Redis markers that expire. Times are milliseconds;
 `iat` and `exp` are whole seconds (RFC 7519, sections 4.1.4 and 4.1.6). One clock
 serves the application and Redis, it never runs backwards, and Redis works.
 */
module Session {

  const USER_DENYLIST_TTL_SECONDS: nat := 30 * 24 * 60 * 60

  // Date.now() is past the first second of 1970, so no token has `iat` 0.
  const EARLIEST: nat := 1000

  // issued and lineage are tags for the proof: the millisecond of issue, and the login
  // the token descends from.
  datatype Token = Token(jti: nat, user: nat, iat: nat, exp: nat, issued: nat, lineage: nat)

  datatype UserMarker = UserMarker(invalidatedBefore: nat, expiresAt: nat)

  // The two kinds of denylist keys, each with the millisecond it expires at.
  datatype Redis = Redis(jtis: map<nat, nat>, users: map<nat, UserMarker>)

  function SetJti(redis: Redis, jti: nat, ttlSeconds: int, now: nat): Redis {
    if ttlSeconds <= 0 then redis else redis.(jtis := redis.jtis[jti := now + ttlSeconds * 1000])
  }

  function SetUser(redis: Redis, user: nat, now: nat): Redis {
    redis.(users := redis.users[user := UserMarker(now, now + USER_DENYLIST_TTL_SECONDS * 1000)])
  }

  predicate Revoked(redis: Redis, tok: Token, now: nat) {
    || (tok.jti in redis.jtis && now < redis.jtis[tok.jti])
    || (tok.iat != 0 && tok.user in redis.users && now < redis.users[tok.user].expiresAt
        && tok.iat * 1000 < redis.users[tok.user].invalidatedBefore)
  }

  // tokenDenylist.js over a working client.
  class Denylist {
    var redis: Redis

    constructor ()
      ensures redis == Redis(map[], map[])
    {
      redis := Redis(map[], map[]);
    }

    method RevokeToken(jti: nat, ttlSeconds: int, now: nat)
      modifies this
      ensures redis == SetJti(old(redis), jti, ttlSeconds, now)
      ensures redis == if ttlSeconds <= 0 then old(redis) else Redis(old(redis).jtis[jti := now + ttlSeconds * 1000], old(redis).users)
    {
      if ttlSeconds <= 0 {
        return;
      }
      redis := redis.(jtis := redis.jtis[jti := now + ttlSeconds * 1000]);
    }

    method RevokeAllUserTokens(user: nat, now: nat)
      modifies this
      ensures redis == SetUser(old(redis), user, now)
      ensures redis == Redis(old(redis).jtis, old(redis).users[user := UserMarker(now, now + 30 * 24 * 60 * 60 * 1000)])
    {
      redis := redis.(users := redis.users[user := UserMarker(now, now + USER_DENYLIST_TTL_SECONDS * 1000)]);
    }

    method IsRevoked(tok: Token, now: nat) returns (revoked: bool)
      ensures revoked == Revoked(redis, tok, now)
    {
      if tok.jti in redis.jtis && now < redis.jtis[tok.jti] {
        return true;
      }
      if tok.iat != 0 && tok.user in redis.users {
        var marker := redis.users[tok.user];
        if now < marker.expiresAt && tok.iat * 1000 < marker.invalidatedBefore {
          return true;
        }
      }
      return false;
    }
  }

  // ---------- Runs ----------

  datatype Revocation = Revocation(jti: nat, ttlSeconds: int)

  // entered: tokens a request has passed requireAuth with; its handler runs at any later
  // time, and one entry stands for any number of requests that passed at that moment.
  // pending: revocations computed by a handler whose SET has not reached Redis yet.
  // landed and signouts are tags: the jtis whose revocation has reached Redis, and the
  // latest sign-out-everywhere of each user.
  datatype State = State(
    now: nat, tokens: set<Token>, redis: Redis, entered: set<Token>, pending: set<Revocation>,
    nextJti: nat, nextLineage: nat, landed: set<nat>, signouts: map<nat, nat>)

  datatype Action =
    | Tick(ms: nat)
    | Login(user: nat)
    | Enter(tok: Token)             // requireAuth lets a request with the token through
    | BeginLogout(tok: Token)       // logout, up to its SET
    | BeginRefresh(tok: Token)      // refresh, up to its SET
    | LandRevocation(r: Revocation) // that SET
    | Refresh(tok: Token)           // refresh with its SET in the same step
    | SignOutEverywhere(tok: Token)

  // requireAuth: jwt.verify, then isRevoked.
  predicate Accepted(s: State, tok: Token) {
    tok in s.tokens && s.now / 1000 < tok.exp && !Revoked(s.redis, tok, s.now)
  }

  function SignToken(s: State, user: nat, lineage: nat, ttlMin: nat): Token {
    Token(s.nextJti, user, s.now / 1000, s.now / 1000 + ttlMin * 60, s.now, lineage)
  }

  function Issue(s: State, user: nat, lineage: nat, ttlMin: nat): State {
    s.(tokens := s.tokens + {SignToken(s, user, lineage, ttlMin)}, nextJti := s.nextJti + 1)
  }

  // What logout and refresh compute for the token they revoke.
  function RevocationOf(s: State, tok: Token): Revocation {
    Revocation(tok.jti, tok.exp - s.now / 1000)
  }

  // The SET they leave under way: none once the token has expired.
  function Revoking(s: State, tok: Token): set<Revocation> {
    if RevocationOf(s, tok).ttlSeconds <= 0 then {} else {RevocationOf(s, tok)}
  }

  function Land(s: State, r: Revocation): State {
    s.(redis := SetJti(s.redis, r.jti, r.ttlSeconds, s.now), landed := s.landed + {r.jti})
  }

  function RevokeNow(s: State, tok: Token): State {
    if RevocationOf(s, tok).ttlSeconds <= 0 then s else Land(s, RevocationOf(s, tok))
  }

  // One step; a handler runs only for a request that has passed requireAuth.
  function Next(s: State, a: Action, ttlMin: nat): State {
    match a
    case Tick(ms) => s.(now := s.now + ms)
    case Login(user) => Issue(s, user, s.nextLineage, ttlMin).(nextLineage := s.nextLineage + 1)
    case Enter(tok) => if !Accepted(s, tok) then s else s.(entered := s.entered + {tok})
    case BeginLogout(tok) =>
      if tok !in s.entered then s else s.(pending := s.pending + Revoking(s, tok))
    case BeginRefresh(tok) =>
      if tok !in s.entered then s
      else Issue(s, tok.user, tok.lineage, ttlMin).(pending := s.pending + Revoking(s, tok))
    case LandRevocation(r) =>
      if r !in s.pending then s else Land(s, r).(pending := s.pending - {r})
    case Refresh(tok) =>
      if tok !in s.entered then s else RevokeNow(Issue(s, tok.user, tok.lineage, ttlMin), tok)
    case SignOutEverywhere(tok) =>
      if tok !in s.entered then s
      else s.(redis := SetUser(s.redis, tok.user, s.now), signouts := s.signouts[tok.user := s.now])
  }

  function Initial(start: nat): State {
    State(start, {}, Redis(map[], map[]), {}, {}, 0, 0, {}, map[])
  }

  function Run(start: nat, acts: seq<Action>, ttlMin: nat): State {
    if acts == [] then Initial(start)
    else Next(Run(start, acts[..|acts| - 1], ttlMin), acts[|acts| - 1], ttlMin)
  }

  // requireAuth and the handlers behind it. logout and refresh run up to the SET they
  // await; that SET reaches Redis in a step of its own.
  class AuthController {
    const ttlMin: nat
    const denylist: Denylist
    var now: nat
    var tokens: set<Token>
    var entered: set<Token>
    var pending: set<Revocation>
    var nextJti: nat
    var nextLineage: nat
    ghost var landed: set<nat>
    ghost var signouts: map<nat, nat>

    constructor (start: nat, ttlMin: nat)
      ensures View() == Initial(start) && this.ttlMin == ttlMin && fresh(denylist)
    {
      this.ttlMin := ttlMin;
      denylist := new Denylist();
      now, tokens, entered, pending, nextJti, nextLineage := start, {}, {}, {}, 0, 0;
      landed, signouts := {}, map[];
    }

    ghost function View(): State
      reads this, denylist
    {
      State(now, tokens, denylist.redis, entered, pending, nextJti, nextLineage, landed, signouts)
    }

    // jwt.verify, then the denylist.
    method Verify(tok: Token) returns (ok: bool)
      ensures ok == Accepted(View(), tok)
    {
      if tok !in tokens || now / 1000 >= tok.exp {
        return false;
      }
      var revoked := denylist.IsRevoked(tok, now);
      ok := !revoked;
    }

    method RequireAuth(tok: Token) returns (ok: bool)
      modifies this
      ensures ok == Accepted(old(View()), tok)
      ensures View() == Next(old(View()), Enter(tok), ttlMin)
    {
      ok := Verify(tok);
      if ok {
        entered := entered + {tok};
      }
    }

    method IssueToken(user: nat, lineage: nat) returns (tok: Token)
      modifies this
      ensures tok == SignToken(old(View()), user, lineage, ttlMin)
      ensures View() == Issue(old(View()), user, lineage, ttlMin)
    {
      tok := Token(nextJti, user, now / 1000, now / 1000 + ttlMin * 60, now, lineage);
      tokens := tokens + {tok};
      nextJti := nextJti + 1;
    }

    method DoLogin(user: nat) returns (tok: Token)
      modifies this
      ensures View() == Next(old(View()), Login(user), ttlMin)
    {
      tok := IssueToken(user, nextLineage);
      nextLineage := nextLineage + 1;
    }

    method StartLogout(tok: Token)
      requires tok in entered
      modifies this
      ensures View() == Next(old(View()), BeginLogout(tok), ttlMin)
    {
      var ttlSeconds := tok.exp - now / 1000;
      if ttlSeconds > 0 {
        pending := pending + {Revocation(tok.jti, ttlSeconds)};
      }
    }

    method StartRefresh(tok: Token) returns (issued: Token)
      requires tok in entered
      modifies this
      ensures issued == SignToken(old(View()), tok.user, tok.lineage, ttlMin)
      ensures View() == Next(old(View()), BeginRefresh(tok), ttlMin)
    {
      issued := IssueToken(tok.user, tok.lineage);
      var ttlSeconds := tok.exp - now / 1000;
      if ttlSeconds > 0 {
        pending := pending + {Revocation(tok.jti, ttlSeconds)};
      }
    }

    method LandSet(r: Revocation)
      modifies this, denylist
      ensures View() == Next(old(View()), LandRevocation(r), ttlMin)
    {
      if r in pending {
        denylist.RevokeToken(r.jti, r.ttlSeconds, now);
        landed := landed + {r.jti};
        pending := pending - {r};
      }
    }

    method LogoutEverywhere(tok: Token)
      requires tok in entered
      modifies this, denylist
      ensures View() == Next(old(View()), SignOutEverywhere(tok), ttlMin)
    {
      denylist.RevokeAllUserTokens(tok.user, now);
      signouts := signouts[tok.user := now];
    }
  }

  // ---------- Logout is permanent ----------

  ghost predicate TokensInv(s: State, ttlMin: nat) {
    && EARLIEST <= s.now
    && (forall t :: t in s.tokens ==>
          t.jti < s.nextJti && t.lineage < s.nextLineage && 0 < t.iat == t.issued / 1000 && t.issued <= s.now
          && t.exp == t.iat + ttlMin * 60)
    && (forall t, u :: t in s.tokens && u in s.tokens && t.jti == u.jti ==> t == u)
    && s.entered <= s.tokens
  }

  // A lineage has one user.
  ghost predicate LineagesInv(s: State) {
    forall t, u :: t in s.tokens && u in s.tokens && t.lineage == u.lineage ==> t.user == u.user
  }

  // A marker lives at least as long as the token it denies: rounding the clock down
  // to seconds only lengthens it, and so does a late SET.
  ghost predicate MarkersInv(s: State) {
    && (forall r, t :: r in s.pending && t in s.tokens && r.jti == t.jti ==> t.exp * 1000 <= s.now + r.ttlSeconds * 1000)
    && (forall r :: r in s.pending ==> r.jti < s.nextJti)
    && (forall j :: j in s.landed ==> j < s.nextJti)
    && (forall t :: t in s.tokens && t.jti in s.landed ==>
          t.exp * 1000 <= s.now || (t.jti in s.redis.jtis && t.exp * 1000 <= s.redis.jtis[t.jti]))
    && s.redis.jtis.Keys <= s.landed
  }

  lemma {:induction false} TokensStep(s: State, a: Action, ttlMin: nat)
    requires TokensInv(s, ttlMin)
    ensures TokensInv(Next(s, a, ttlMin), ttlMin)
  {}

  lemma {:induction false} LineagesStep(s: State, a: Action, ttlMin: nat)
    requires TokensInv(s, ttlMin) && LineagesInv(s)
    ensures LineagesInv(Next(s, a, ttlMin))
  {}

  lemma {:induction false} MarkersStep(s: State, a: Action, ttlMin: nat)
    requires TokensInv(s, ttlMin) && MarkersInv(s)
    ensures MarkersInv(Next(s, a, ttlMin))
  {
    match a
    case Tick(_) => QuietKeepsMarkers(s, a, ttlMin);
    case Login(user) => IssueKeepsMarkers(s, user, s.nextLineage, ttlMin);
    case Enter(_) => QuietKeepsMarkers(s, a, ttlMin);
    case SignOutEverywhere(_) => QuietKeepsMarkers(s, a, ttlMin);
    case LandRevocation(r) =>
      if r in s.pending {
        LandKeepsMarkers(s, r);
      }
    case BeginLogout(_) => RevokingKeepsMarkers(s, a, ttlMin);
    case BeginRefresh(_) => RevokingKeepsMarkers(s, a, ttlMin);
    case Refresh(_) => RevokingKeepsMarkers(s, a, ttlMin);
  }

  lemma {:induction false} QuietKeepsMarkers(s: State, a: Action, ttlMin: nat)
    requires MarkersInv(s) && (a.Tick? || a.Enter? || a.SignOutEverywhere?)
    ensures MarkersInv(Next(s, a, ttlMin))
  {}

  lemma {:induction false} RevokingKeepsMarkers(s: State, a: Action, ttlMin: nat)
    requires TokensInv(s, ttlMin) && MarkersInv(s) && (a.BeginLogout? || a.BeginRefresh? || a.Refresh?)
    ensures MarkersInv(Next(s, a, ttlMin))
  {
    if a.tok in s.entered {
      PendingKeepsMarkers(s, a.tok);
      RefreshKeepsMarkers(s, a.tok, ttlMin);
    }
  }

  lemma {:induction false} RefreshKeepsMarkers(s: State, tok: Token, ttlMin: nat)
    requires TokensInv(s, ttlMin) && MarkersInv(s) && tok in s.tokens
    ensures var issued := Issue(s, tok.user, tok.lineage, ttlMin);
            MarkersInv(issued.(pending := s.pending + Revoking(s, tok))) && MarkersInv(RevokeNow(issued, tok))
  {
    var issued := Issue(s, tok.user, tok.lineage, ttlMin);
    IssueKeepsMarkers(s, tok.user, tok.lineage, ttlMin);
    IssueIsFresh(s, tok, ttlMin);
    PendingKeepsMarkers(issued, tok);
    LandKeepsMarkers(issued, RevocationOf(issued, tok));
  }

  lemma {:induction false} IssueIsFresh(s: State, tok: Token, ttlMin: nat)
    requires TokensInv(s, ttlMin) && tok in s.tokens
    ensures var issued := Issue(s, tok.user, tok.lineage, ttlMin);
            && issued.pending == s.pending && RevocationOf(issued, tok) == RevocationOf(s, tok)
            && tok in issued.tokens && tok.jti < issued.nextJti
            && (forall t :: t in issued.tokens && t.jti == tok.jti ==> t == tok)
  {}

  lemma {:induction false} IssueKeepsMarkers(s: State, user: nat, lineage: nat, ttlMin: nat)
    requires MarkersInv(s)
    ensures MarkersInv(Issue(s, user, lineage, ttlMin))
  {}

  lemma {:induction false} PendingKeepsMarkers(s: State, tok: Token)
    requires MarkersInv(s) && tok in s.tokens && tok.jti < s.nextJti
    requires forall t :: t in s.tokens && t.jti == tok.jti ==> t == tok
    ensures MarkersInv(s.(pending := s.pending + Revoking(s, tok)))
  {}

  // The revocation r outlives the token it revokes.
  lemma {:induction false} LandKeepsMarkers(s: State, r: Revocation)
    requires MarkersInv(s) && r.jti < s.nextJti
    requires forall t :: t in s.tokens && r.jti == t.jti ==> t.exp * 1000 <= s.now + r.ttlSeconds * 1000
    ensures MarkersInv(Land(s, r))
  {}

  // What every run keeps.
  ghost predicate Inv(s: State, ttlMin: nat) {
    TokensInv(s, ttlMin) && LineagesInv(s) && MarkersInv(s) && UsersInv(s)
  }

  lemma {:induction false} InvStep(s: State, a: Action, ttlMin: nat)
    requires Inv(s, ttlMin)
    ensures Inv(Next(s, a, ttlMin), ttlMin)
  {
    TokensStep(s, a, ttlMin);
    LineagesStep(s, a, ttlMin);
    MarkersStep(s, a, ttlMin);
    UsersStep(s, a, ttlMin);
  }

  lemma {:induction false} MarkersKeep(start: nat, acts: seq<Action>, ttlMin: nat)
    requires EARLIEST <= start
    ensures Inv(Run(start, acts, ttlMin), ttlMin)
  {
    if acts != [] {
      MarkersKeep(start, acts[..|acts| - 1], ttlMin);
      InvStep(Run(start, acts[..|acts| - 1], ttlMin), acts[|acts| - 1], ttlMin);
    }
  }

  lemma {:induction false} LandedStays(start: nat, acts: seq<Action>, i: nat, ttlMin: nat)
    requires i <= |acts|
    ensures Run(start, acts[..i], ttlMin).landed <= Run(start, acts, ttlMin).landed
  {
    if i == |acts| {
      assert acts[..i] == acts;
    } else {
      assert acts[..|acts| - 1][..i] == acts[..i];
      LandedStays(start, acts[..|acts| - 1], i, ttlMin);
    }
  }

  // Once its revocation has reached Redis, a token is never accepted again.
  lemma {:induction false} LogoutIsPermanent(start: nat, acts: seq<Action>, i: nat, ttlMin: nat, tok: Token)
    requires EARLIEST <= start && i <= |acts|
    requires tok.jti in Run(start, acts[..i], ttlMin).landed
    ensures !Accepted(Run(start, acts, ttlMin), tok)
  {
    MarkersKeep(start, acts, ttlMin);
    LandedStays(start, acts, i, ttlMin);
  }

  // And it reaches Redis with its SET: then nothing of it is under way any more.
  lemma {:induction false} LandingRevokes(start: nat, acts: seq<Action>, r: Revocation, ttlMin: nat, tok: Token)
    requires EARLIEST <= start && r in Run(start, acts, ttlMin).pending && r.jti == tok.jti
    ensures !Accepted(Run(start, acts + [LandRevocation(r)], ttlMin), tok)
    ensures Run(start, acts + [LandRevocation(r)], ttlMin).pending == Run(start, acts, ttlMin).pending - {r}
  {
    var all := acts + [LandRevocation(r)];
    RunSnoc(start, acts, LandRevocation(r), ttlMin);
    assert all[..|all|] == all;
    LogoutIsPermanent(start, all, |all|, ttlMin, tok);
  }

  // ---------- Sign-out-everywhere ----------

  ghost predicate UsersInv(s: State) {
    && s.redis.users.Keys == s.signouts.Keys
    && (forall u :: u in s.signouts ==>
          s.redis.users[u] == UserMarker(s.signouts[u], s.signouts[u] + USER_DENYLIST_TTL_SECONDS * 1000)
          && s.signouts[u] <= s.now)
  }

  lemma {:induction false} UsersStep(s: State, a: Action, ttlMin: nat)
    requires UsersInv(s)
    ensures UsersInv(Next(s, a, ttlMin))
  {}

  // Thirty days in minutes.
  const MAX_TTL_MIN: nat := 30 * 24 * 60

  // Issued, not expired, its revocation not landed, and its user not signed out
  // everywhere at a millisecond after its issue second began.
  predicate Survives(s: State, tok: Token) {
    && tok in s.tokens && s.now / 1000 < tok.exp && tok.jti !in s.landed
    && (tok.user in s.signouts ==> s.signouts[tok.user] <= tok.iat * 1000)
  }

  lemma {:induction false} AcceptedIsSurviving(s: State, tok: Token, ttlMin: nat)
    requires Inv(s, ttlMin) && ttlMin <= MAX_TTL_MIN
    ensures Accepted(s, tok) <==> Survives(s, tok)
  {
    if tok in s.tokens && s.now / 1000 < tok.exp && tok.user in s.signouts && tok.iat * 1000 < s.signouts[tok.user] {
      assert tok.exp * 1000 == tok.iat * 1000 + ttlMin * 60 * 1000;
      assert s.now < tok.exp * 1000;
    }
  }

  // With a session lifetime of at most thirty days, that is the acceptance decision of every run.
  lemma {:induction false} AcceptedExactly(start: nat, acts: seq<Action>, ttlMin: nat, tok: Token)
    requires EARLIEST <= start && ttlMin <= MAX_TTL_MIN
    ensures Accepted(Run(start, acts, ttlMin), tok) <==> Survives(Run(start, acts, ttlMin), tok)
  {
    MarkersKeep(start, acts, ttlMin);
    AcceptedIsSurviving(Run(start, acts, ttlMin), tok, ttlMin);
  }

  // No token issued strictly before its user signed out everywhere is accepted.
  ghost predicate SignOutHolds(s: State) {
    forall tok :: tok in s.tokens && tok.user in s.signouts && tok.issued < s.signouts[tok.user] ==> !Accepted(s, tok)
  }

  // Sign-out-everywhere keeps its promise in every run exactly when a session lives at most thirty days.
  lemma {:induction false} SignOutHoldsExactly(ttlMin: nat)
    ensures (forall start: nat, acts: seq<Action> :: EARLIEST <= start ==> SignOutHolds(Run(start, acts, ttlMin)))
            <==> ttlMin <= 43200
  {
    if ttlMin <= MAX_TTL_MIN {
      forall start: nat, acts: seq<Action> | EARLIEST <= start
        ensures SignOutHolds(Run(start, acts, ttlMin))
      {
        SignOutHoldsInRun(start, acts, ttlMin);
      }
    } else {
      LongSessionOutlivesMarker(ttlMin);
    }
  }

  lemma {:induction false} SignOutHoldsInRun(start: nat, acts: seq<Action>, ttlMin: nat)
    requires EARLIEST <= start && ttlMin <= MAX_TTL_MIN
    ensures SignOutHolds(Run(start, acts, ttlMin))
  {
    var s := Run(start, acts, ttlMin);
    MarkersKeep(start, acts, ttlMin);
    forall tok | tok in s.tokens && tok.user in s.signouts && tok.issued < s.signouts[tok.user]
      ensures !Accepted(s, tok)
    {
      AcceptedExactly(start, acts, ttlMin, tok);
    }
  }

  // A longer session is accepted again once the thirty-day marker is gone.
  lemma {:induction false} LongSessionOutlivesMarker(ttlMin: nat)
    requires ttlMin > MAX_TTL_MIN
    ensures exists acts: seq<Action> :: !SignOutHolds(Run(EARLIEST, acts, ttlMin))
  {
    var tok := FirstToken(ttlMin);
    var acts := [Login(7), Enter(tok), Tick(1), SignOutEverywhere(tok), Tick(USER_DENYLIST_TTL_SECONDS * 1000)];
    AfterLogin(ttlMin);
    RunOfTwo(EARLIEST, acts, ttlMin);
    OneMore(EARLIEST, acts, 2, ttlMin);
    OneMore(EARLIEST, acts, 3, ttlMin);
    OneMore(EARLIEST, acts, 4, ttlMin);
    var s := Run(EARLIEST, acts[..5], ttlMin);
    assert acts[..5] == acts;
    assert s.now == 2592001001 && s.now / 1000 == 2592001;
    assert Accepted(s, tok) && tok.issued < s.signouts[7];
    assert !SignOutHolds(Run(EARLIEST, acts, ttlMin));
  }

  // User 7 logs in in the first second and enters.
  function FirstToken(ttlMin: nat): Token {
    Token(0, 7, 1, 1 + ttlMin * 60, 1000, 0)
  }

  lemma {:induction false} AfterLogin(ttlMin: nat)
    requires ttlMin > 0
    ensures var tok := FirstToken(ttlMin);
            Next(Next(Initial(EARLIEST), Login(7), ttlMin), Enter(tok), ttlMin)
            == State(EARLIEST, {tok}, Redis(map[], map[]), {tok}, {}, 1, 1, {}, map[])
  {
    var s := Next(Initial(EARLIEST), Login(7), ttlMin);
    assert s.tokens == {FirstToken(ttlMin)} && Accepted(s, FirstToken(ttlMin));
  }

  // A sign-out in the future of a run only moves later.
  lemma {:induction false} SignoutsGrow(start: nat, acts: seq<Action>, i: nat, user: nat, ttlMin: nat)
    requires EARLIEST <= start && i <= |acts| && user in Run(start, acts[..i], ttlMin).signouts
    ensures user in Run(start, acts, ttlMin).signouts
    ensures Run(start, acts[..i], ttlMin).signouts[user] <= Run(start, acts, ttlMin).signouts[user]
  {
    if i == |acts| {
      assert acts[..i] == acts;
    } else {
      var init := acts[..|acts| - 1];
      assert init[..i] == acts[..i];
      SignoutsGrow(start, init, i, user, ttlMin);
      MarkersKeep(start, init, ttlMin);
    }
  }

  // The user signed out everywhere after the current second began.
  predicate SignedOutThisSecond(s: State, user: nat) {
    user in s.signouts && s.now / 1000 * 1000 < s.signouts[user]
  }

  // A step that issues a token, and that token.
  predicate Issues(s: State, a: Action) {
    a.Login? || ((a.BeginRefresh? || a.Refresh?) && a.tok in s.entered)
  }

  function IssuedBy(s: State, a: Action, ttlMin: nat): Token
    requires Issues(s, a)
  {
    if a.Login? then SignToken(s, a.user, s.nextLineage, ttlMin) else SignToken(s, a.tok.user, a.tok.lineage, ttlMin)
  }

  lemma {:induction false} IssuedInState(s: State, a: Action, ttlMin: nat)
    requires Inv(s, ttlMin) && Issues(s, a)
    ensures var t := IssuedBy(s, a, ttlMin);
            && Accepted(Next(s, a, ttlMin), t) <==> ttlMin > 0 && !SignedOutThisSecond(s, t.user)
  {}

  // A token a login or a refresh issues is accepted at once, exactly when its user did
  // not sign out everywhere earlier in the very second of the issue ...
  lemma {:induction false} IssuedIsAcceptedExactly(start: nat, acts: seq<Action>, a: Action, ttlMin: nat)
    requires EARLIEST <= start && Issues(Run(start, acts, ttlMin), a)
    ensures var s := Run(start, acts, ttlMin);
            Accepted(Run(start, acts + [a], ttlMin), IssuedBy(s, a, ttlMin))
            <==> ttlMin > 0 && !SignedOutThisSecond(s, IssuedBy(s, a, ttlMin).user)
  {
    MarkersKeep(start, acts, ttlMin);
    RunSnoc(start, acts, a, ttlMin);
    IssuedInState(Run(start, acts, ttlMin), a, ttlMin);
  }

  // ... and else it is refused for its whole life, exactly when a session lives at most
  // thirty days: a longer one is accepted once the marker is gone.
  lemma {:induction false} IssuedIsLockedOutExactly(start: nat, acts: seq<Action>, a: Action, ttlMin: nat)
    requires EARLIEST <= start && Issues(Run(start, acts, ttlMin), a)
    ensures var s := Run(start, acts, ttlMin);
            (forall later: seq<Action> :: !Accepted(Run(start, acts + [a] + later, ttlMin), IssuedBy(s, a, ttlMin)))
            <==> ttlMin == 0 || (SignedOutThisSecond(s, IssuedBy(s, a, ttlMin).user) && ttlMin <= 43200)
  {
    var s := Run(start, acts, ttlMin);
    var tok := IssuedBy(s, a, ttlMin);
    var from := acts + [a];
    if ttlMin == 0 || (SignedOutThisSecond(s, tok.user) && ttlMin <= MAX_TTL_MIN) {
      forall later: seq<Action>
        ensures !Accepted(Run(start, from + later, ttlMin), tok)
      {
        LockedOut(start, acts, a, ttlMin, from + later);
      }
    } else if !SignedOutThisSecond(s, tok.user) {
      IssuedIsAcceptedExactly(start, acts, a, ttlMin);
      assert from + [] == from;
      assert Accepted(Run(start, from + [], ttlMin), tok);
    } else {
      MarkersKeep(start, acts, ttlMin);
      var wait := s.signouts[tok.user] + USER_DENYLIST_TTL_SECONDS * 1000 - s.now;
      RunSnoc(start, acts, a, ttlMin);
      RunSnoc(start, from, Tick(wait), ttlMin);
      AcceptedAfterMarker(s, a, ttlMin, wait);
      assert Accepted(Run(start, from + [Tick(wait)], ttlMin), tok);
    }
  }

  lemma {:induction false} LockedOut(start: nat, acts: seq<Action>, a: Action, ttlMin: nat, all: seq<Action>)
    requires EARLIEST <= start && Issues(Run(start, acts, ttlMin), a) && acts <= all
    requires var s := Run(start, acts, ttlMin);
             ttlMin == 0 || (SignedOutThisSecond(s, IssuedBy(s, a, ttlMin).user) && ttlMin <= MAX_TTL_MIN)
    ensures !Accepted(Run(start, all, ttlMin), IssuedBy(Run(start, acts, ttlMin), a, ttlMin))
  {
    var tok := IssuedBy(Run(start, acts, ttlMin), a, ttlMin);
    MarkersKeep(start, all, ttlMin);
    if ttlMin != 0 {
      assert all[..|acts|] == acts;
      SignoutsGrow(start, all, |acts|, tok.user, ttlMin);
      AcceptedIsSurviving(Run(start, all, ttlMin), tok, ttlMin);
    }
  }

  lemma {:induction false} AcceptedAfterMarker(s: State, a: Action, ttlMin: nat, wait: nat)
    requires Inv(s, ttlMin) && Issues(s, a) && ttlMin > MAX_TTL_MIN
    requires SignedOutThisSecond(s, IssuedBy(s, a, ttlMin).user)
    requires s.now + wait == s.signouts[IssuedBy(s, a, ttlMin).user] + USER_DENYLIST_TTL_SECONDS * 1000
    ensures Accepted(Next(Next(s, a, ttlMin), Tick(wait), ttlMin), IssuedBy(s, a, ttlMin))
  {
    var tok := IssuedBy(s, a, ttlMin);
    assert tok.exp * 1000 > s.now + USER_DENYLIST_TTL_SECONDS * 1000;
    assert s.now + wait <= s.now + USER_DENYLIST_TTL_SECONDS * 1000;
  }

  lemma {:induction false} RunSnoc(start: nat, acts: seq<Action>, a: Action, ttlMin: nat)
    ensures Run(start, acts + [a], ttlMin) == Next(Run(start, acts, ttlMin), a, ttlMin)
  {}

  lemma {:induction false} OneMore(start: nat, acts: seq<Action>, i: nat, ttlMin: nat)
    requires i < |acts|
    ensures Run(start, acts[..i + 1], ttlMin) == Next(Run(start, acts[..i], ttlMin), acts[i], ttlMin)
  {
    assert acts[..i + 1] == acts[..i] + [acts[i]];
    RunSnoc(start, acts[..i], acts[i], ttlMin);
  }

  lemma {:induction false} RunOfTwo(start: nat, acts: seq<Action>, ttlMin: nat)
    requires |acts| >= 2
    ensures Run(start, acts[..2], ttlMin) == Next(Next(Initial(start), acts[0], ttlMin), acts[1], ttlMin)
  {
    OneMore(start, acts, 0, ttlMin);
    OneMore(start, acts, 1, ttlMin);
  }

  // ---------- Rotation ----------

  // No two accepted tokens descend from one login.
  ghost predicate NoTwins(s: State) {
    forall t, u :: Accepted(s, t) && Accepted(s, u) && t.lineage == u.lineage ==> t == u
  }

  // refresh signs a token while another of its lineage is accepted. Without the SET in
  // the same step the refreshed token itself is such a one, if it is still accepted.
  ghost predicate Doubles(s: State, a: Action) {
    && (a.BeginRefresh? || a.Refresh?) && a.tok in s.entered
    && exists u :: Accepted(s, u) && u.lineage == a.tok.lineage && (a.Refresh? ==> u != a.tok)
  }

  ghost predicate NeverDoubles(start: nat, acts: seq<Action>, ttlMin: nat) {
    forall i :: 0 <= i < |acts| ==> !Doubles(Run(start, acts[..i], ttlMin), acts[i])
  }

  // A step accepts no token it does not issue.
  lemma {:induction false} AcceptedBefore(s: State, a: Action, ttlMin: nat, t: Token)
    requires Inv(s, ttlMin) && ttlMin <= MAX_TTL_MIN && Accepted(Next(s, a, ttlMin), t)
    ensures Accepted(s, t) || (Issues(s, a) && t == IssuedBy(s, a, ttlMin))
  {
    InvStep(s, a, ttlMin);
    AcceptedIsSurviving(s, t, ttlMin);
    AcceptedIsSurviving(Next(s, a, ttlMin), t, ttlMin);
    SurvivedBefore(s, a, ttlMin, t);
  }

  lemma {:induction false} SurvivedBefore(s: State, a: Action, ttlMin: nat, t: Token)
    requires Inv(s, ttlMin) && Survives(Next(s, a, ttlMin), t)
    ensures Survives(s, t) || (Issues(s, a) && t == IssuedBy(s, a, ttlMin))
  {}

  // The refreshed token does not outlive a refresh with its SET.
  lemma {:induction false} RefreshedIsRevoked(s: State, tok: Token, ttlMin: nat)
    requires Inv(s, ttlMin) && ttlMin <= MAX_TTL_MIN && tok in s.entered
    ensures !Accepted(Next(s, Refresh(tok), ttlMin), tok)
  {
    InvStep(s, Refresh(tok), ttlMin);
    AcceptedIsSurviving(Next(s, Refresh(tok), ttlMin), tok, ttlMin);
  }

  // What a refresh next to an accepted token of its lineage leaves accepted: both.
  lemma {:induction false} RefreshBesides(s: State, a: Action, ttlMin: nat, u: Token)
    requires Inv(s, ttlMin) && ttlMin <= MAX_TTL_MIN
    requires (a.BeginRefresh? || a.Refresh?) && a.tok in s.entered
    requires Accepted(s, u) && u.lineage == a.tok.lineage && (a.Refresh? ==> u != a.tok)
    ensures var t := IssuedBy(s, a, ttlMin);
            Accepted(Next(s, a, ttlMin), t) && Accepted(Next(s, a, ttlMin), u) && t.lineage == u.lineage && t != u
  {
    InvStep(s, a, ttlMin);
    AcceptedIsSurviving(s, u, ttlMin);
    AcceptedIsSurviving(Next(s, a, ttlMin), u, ttlMin);
    AcceptedIsSurviving(Next(s, a, ttlMin), IssuedBy(s, a, ttlMin), ttlMin);
  }

  lemma {:induction false} TwinsStep(s: State, a: Action, ttlMin: nat)
    requires Inv(s, ttlMin) && ttlMin <= MAX_TTL_MIN && NoTwins(s)
    ensures NoTwins(Next(s, a, ttlMin)) <==> !Doubles(s, a)
  {
    if Doubles(s, a) {
      var u :| Accepted(s, u) && u.lineage == a.tok.lineage && (a.Refresh? ==> u != a.tok);
      RefreshBesides(s, a, ttlMin, u);
    } else {
      forall t, u | Accepted(Next(s, a, ttlMin), t) && Accepted(Next(s, a, ttlMin), u) && t.lineage == u.lineage
        ensures t == u
      {
        NoSecond(s, a, ttlMin, t, u);
      }
    }
  }

  lemma {:induction false} NoSecond(s: State, a: Action, ttlMin: nat, t: Token, u: Token)
    requires Inv(s, ttlMin) && ttlMin <= MAX_TTL_MIN && NoTwins(s) && !Doubles(s, a)
    requires Accepted(Next(s, a, ttlMin), t) && Accepted(Next(s, a, ttlMin), u) && t.lineage == u.lineage
    ensures t == u
  {
    AcceptedBefore(s, a, ttlMin, t);
    AcceptedBefore(s, a, ttlMin, u);
    if a.Refresh? && a.tok in s.entered {
      RefreshedIsRevoked(s, a.tok, ttlMin);
    }
  }

  // Along a run no two accepted tokens ever descend from one login, exactly when no
  // refresh signs while another token of its lineage is accepted.
  lemma {:induction false} OneAcceptedPerLineage(start: nat, acts: seq<Action>, ttlMin: nat)
    requires EARLIEST <= start && ttlMin <= MAX_TTL_MIN
    ensures (forall i :: 0 <= i <= |acts| ==> NoTwins(Run(start, acts[..i], ttlMin))) <==> NeverDoubles(start, acts, ttlMin)
  {
    if NeverDoubles(start, acts, ttlMin) {
      forall i | 0 <= i <= |acts|
        ensures NoTwins(Run(start, acts[..i], ttlMin))
      {
        NoTwinsAt(start, acts, i, ttlMin);
      }
    } else if forall i :: 0 <= i <= |acts| ==> NoTwins(Run(start, acts[..i], ttlMin)) {
      var i :| 0 <= i < |acts| && Doubles(Run(start, acts[..i], ttlMin), acts[i]);
      MarkersKeep(start, acts[..i], ttlMin);
      TwinsStep(Run(start, acts[..i], ttlMin), acts[i], ttlMin);
      OneMore(start, acts, i, ttlMin);
      assert NoTwins(Run(start, acts[..i + 1], ttlMin));
    }
  }

  lemma {:induction false} NoTwinsAt(start: nat, acts: seq<Action>, i: nat, ttlMin: nat)
    requires EARLIEST <= start && ttlMin <= MAX_TTL_MIN && i <= |acts| && NeverDoubles(start, acts, ttlMin)
    ensures NoTwins(Run(start, acts[..i], ttlMin))
  {
    if i != 0 {
      NoTwinsAt(start, acts, i - 1, ttlMin);
      MarkersKeep(start, acts[..i - 1], ttlMin);
      TwinsStep(Run(start, acts[..i - 1], ttlMin), acts[i - 1], ttlMin);
      OneMore(start, acts, i - 1, ttlMin);
    }
  }

  // A refresh that checks its token again when it signs, and revokes it in the same step.
  predicate IsRechecked(s: State, a: Action) {
    && (a.Refresh? && a.tok in s.entered ==> Accepted(s, a.tok))
    && (a.BeginRefresh? ==> a.tok !in s.entered)
  }

  // Such refreshes would keep the promise.
  lemma {:induction false} RecheckedRefreshesHold(start: nat, acts: seq<Action>, i: nat, ttlMin: nat)
    requires EARLIEST <= start && ttlMin <= MAX_TTL_MIN && i <= |acts|
    requires forall j :: 0 <= j < |acts| ==> IsRechecked(Run(start, acts[..j], ttlMin), acts[j])
    ensures NoTwins(Run(start, acts[..i], ttlMin))
  {
    if i != 0 {
      RecheckedRefreshesHold(start, acts, i - 1, ttlMin);
      assert IsRechecked(Run(start, acts[..i - 1], ttlMin), acts[i - 1]);
      MarkersKeep(start, acts[..i - 1], ttlMin);
      TwinsStep(Run(start, acts[..i - 1], ttlMin), acts[i - 1], ttlMin);
      OneMore(start, acts, i - 1, ttlMin);
    }
  }

  // ---------- Rotation, not counting revocations under way ----------

  predicate IsPending(s: State, jti: nat) {
    exists r :: r in s.pending && r.jti == jti
  }

  // Accepted, and not about to be revoked.
  predicate Live(s: State, tok: Token) {
    Accepted(s, tok) && !IsPending(s, tok.jti)
  }

  ghost predicate NoLiveTwins(s: State) {
    forall t, u :: Live(s, t) && Live(s, u) && t.lineage == u.lineage ==> t == u
  }

  // refresh signs a token while another than the refreshed one is live in the lineage.
  ghost predicate DoublesLive(s: State, a: Action) {
    && (a.BeginRefresh? || a.Refresh?) && a.tok in s.entered
    && exists u :: Live(s, u) && u.lineage == a.tok.lineage && u != a.tok
  }

  ghost predicate NeverDoublesLive(start: nat, acts: seq<Action>, ttlMin: nat) {
    forall i :: 0 <= i < |acts| ==> !DoublesLive(Run(start, acts[..i], ttlMin), acts[i])
  }

  lemma {:induction false} StaysPending(s: State, a: Action, ttlMin: nat, jti: nat)
    requires IsPending(s, jti)
    ensures IsPending(Next(s, a, ttlMin), jti) || jti in Next(s, a, ttlMin).landed
  {
    var r :| r in s.pending && r.jti == jti;
    assert r in Next(s, a, ttlMin).pending || a == LandRevocation(r);
  }

  lemma {:induction false} LiveBefore(s: State, a: Action, ttlMin: nat, t: Token)
    requires Inv(s, ttlMin) && ttlMin <= MAX_TTL_MIN && Live(Next(s, a, ttlMin), t)
    ensures Live(s, t) || (Issues(s, a) && t == IssuedBy(s, a, ttlMin))
  {
    AcceptedBefore(s, a, ttlMin, t);
    InvStep(s, a, ttlMin);
    AcceptedIsSurviving(Next(s, a, ttlMin), t, ttlMin);
    if IsPending(s, t.jti) {
      StaysPending(s, a, ttlMin, t.jti);
    }
  }

  // The refreshed token is not live after a refresh, with its SET or without.
  lemma {:induction false} RefreshedIsNotLive(s: State, a: Action, ttlMin: nat)
    requires Inv(s, ttlMin) && ttlMin <= MAX_TTL_MIN
    requires (a.BeginRefresh? || a.Refresh?) && a.tok in s.entered
    ensures !Live(Next(s, a, ttlMin), a.tok)
  {
    if a.Refresh? {
      RefreshedIsRevoked(s, a.tok, ttlMin);
    } else if RevocationOf(s, a.tok).ttlSeconds > 0 {
      assert RevocationOf(s, a.tok) in Next(s, a, ttlMin).pending;
    }
  }

  lemma {:induction false} LiveStep(s: State, a: Action, ttlMin: nat)
    requires Inv(s, ttlMin) && ttlMin <= MAX_TTL_MIN && NoLiveTwins(s)
    ensures NoLiveTwins(Next(s, a, ttlMin)) <==> !DoublesLive(s, a)
  {
    if DoublesLive(s, a) {
      var u :| Live(s, u) && u.lineage == a.tok.lineage && u != a.tok;
      RefreshBesides(s, a, ttlMin, u);
      RefreshKeepsLive(s, a, ttlMin, u);
    } else {
      forall t, u | Live(Next(s, a, ttlMin), t) && Live(Next(s, a, ttlMin), u) && t.lineage == u.lineage
        ensures t == u
      {
        NoSecondLive(s, a, ttlMin, t, u);
      }
    }
  }

  lemma {:induction false} RefreshKeepsLive(s: State, a: Action, ttlMin: nat, u: Token)
    requires Inv(s, ttlMin) && (a.BeginRefresh? || a.Refresh?) && a.tok in s.entered
    requires u in s.tokens && !IsPending(s, u.jti) && u != a.tok
    ensures !IsPending(Next(s, a, ttlMin), u.jti) && !IsPending(Next(s, a, ttlMin), IssuedBy(s, a, ttlMin).jti)
  {}

  lemma {:induction false} NoSecondLive(s: State, a: Action, ttlMin: nat, t: Token, u: Token)
    requires Inv(s, ttlMin) && ttlMin <= MAX_TTL_MIN && NoLiveTwins(s) && !DoublesLive(s, a)
    requires Live(Next(s, a, ttlMin), t) && Live(Next(s, a, ttlMin), u) && t.lineage == u.lineage
    ensures t == u
  {
    LiveBefore(s, a, ttlMin, t);
    LiveBefore(s, a, ttlMin, u);
    if (a.BeginRefresh? || a.Refresh?) && a.tok in s.entered {
      RefreshedIsNotLive(s, a, ttlMin);
    }
  }

  // Along a run no two live tokens ever descend from one login, exactly when no refresh
  // signs while another than the refreshed token is live in its lineage.
  lemma {:induction false} OneLivePerLineage(start: nat, acts: seq<Action>, ttlMin: nat)
    requires EARLIEST <= start && ttlMin <= MAX_TTL_MIN
    ensures (forall i :: 0 <= i <= |acts| ==> NoLiveTwins(Run(start, acts[..i], ttlMin))) <==> NeverDoublesLive(start, acts, ttlMin)
  {
    if NeverDoublesLive(start, acts, ttlMin) {
      forall i | 0 <= i <= |acts|
        ensures NoLiveTwins(Run(start, acts[..i], ttlMin))
      {
        NoLiveTwinsAt(start, acts, i, ttlMin);
      }
    } else if forall i :: 0 <= i <= |acts| ==> NoLiveTwins(Run(start, acts[..i], ttlMin)) {
      var i :| 0 <= i < |acts| && DoublesLive(Run(start, acts[..i], ttlMin), acts[i]);
      MarkersKeep(start, acts[..i], ttlMin);
      LiveStep(Run(start, acts[..i], ttlMin), acts[i], ttlMin);
      OneMore(start, acts, i, ttlMin);
      assert NoLiveTwins(Run(start, acts[..i + 1], ttlMin));
    }
  }

  lemma {:induction false} NoLiveTwinsAt(start: nat, acts: seq<Action>, i: nat, ttlMin: nat)
    requires EARLIEST <= start && ttlMin <= MAX_TTL_MIN && i <= |acts| && NeverDoublesLive(start, acts, ttlMin)
    ensures NoLiveTwins(Run(start, acts[..i], ttlMin))
  {
    if i != 0 {
      NoLiveTwinsAt(start, acts, i - 1, ttlMin);
      MarkersKeep(start, acts[..i - 1], ttlMin);
      LiveStep(Run(start, acts[..i - 1], ttlMin), acts[i - 1], ttlMin);
      OneMore(start, acts, i - 1, ttlMin);
    }
  }

  // So at every moment of such a run with no revocation under way, at most one token
  // of a lineage is accepted.
  lemma {:induction false} OneAcceptedWhenSettled(start: nat, acts: seq<Action>, i: nat, ttlMin: nat)
    requires EARLIEST <= start && ttlMin <= MAX_TTL_MIN && i <= |acts| && NeverDoublesLive(start, acts, ttlMin)
    requires Run(start, acts[..i], ttlMin).pending == {}
    ensures NoTwins(Run(start, acts[..i], ttlMin))
  {
    NoLiveTwinsAt(start, acts, i, ttlMin);
    forall t | Accepted(Run(start, acts[..i], ttlMin), t)
      ensures Live(Run(start, acts[..i], ttlMin), t)
    {
    }
  }

  // ---------- What the handlers bring about ----------

  // Entered are exactly the tokens that were accepted when a request came with them.
  lemma {:induction false} EnteredExactly(start: nat, acts: seq<Action>, ttlMin: nat, tok: Token)
    ensures tok in Run(start, acts, ttlMin).entered
            <==> exists i :: 0 <= i < |acts| && acts[i] == Enter(tok) && Accepted(Run(start, acts[..i], ttlMin), tok)
  {
    if acts != [] {
      var n := |acts| - 1;
      var init := acts[..n];
      EnteredExactly(start, init, ttlMin, tok);
      forall i | 0 <= i < n
        ensures init[..i] == acts[..i] && init[i] == acts[i]
      {
      }
    }
  }

  // No handler does anything for a request that has not entered.
  lemma {:induction false} HandlersNeedEntry(s: State, a: Action, ttlMin: nat)
    requires (a.BeginLogout? || a.BeginRefresh? || a.Refresh? || a.SignOutEverywhere?) && a.tok !in s.entered
    ensures Next(s, a, ttlMin) == s
  {}

  // The handlers that revoke their token.
  predicate Revokes(a: Action, tok: Token) {
    a == BeginLogout(tok) || a == BeginRefresh(tok) || a == Refresh(tok)
  }

  // The token's revocation is under way or has landed, or it has expired.
  predicate IsGone(s: State, tok: Token) {
    IsPending(s, tok.jti) || tok.jti in s.landed || tok.exp <= s.now / 1000
  }

  lemma {:induction false} RevokedIsGone(s: State, a: Action, ttlMin: nat, tok: Token)
    requires Revokes(a, tok) && tok in s.entered
    ensures IsGone(Next(s, a, ttlMin), tok)
  {
    var r := RevocationOf(s, tok);
    if r.ttlSeconds > 0 && !a.Refresh? {
      assert r in Next(s, a, ttlMin).pending;
    }
  }

  lemma {:induction false} GoneStays(s: State, a: Action, ttlMin: nat, tok: Token)
    requires IsGone(s, tok)
    ensures IsGone(Next(s, a, ttlMin), tok)
  {
    if IsPending(s, tok.jti) {
      StaysPending(s, a, ttlMin, tok.jti);
    }
  }

  lemma {:induction false} StaysGone(start: nat, acts: seq<Action>, i: nat, j: nat, ttlMin: nat, tok: Token)
    requires i < j <= |acts| && Revokes(acts[i], tok) && tok in Run(start, acts[..i], ttlMin).entered
    ensures IsGone(Run(start, acts[..j], ttlMin), tok)
  {
    OneMore(start, acts, j - 1, ttlMin);
    if j == i + 1 {
      RevokedIsGone(Run(start, acts[..i], ttlMin), acts[i], ttlMin, tok);
    } else {
      StaysGone(start, acts, i, j - 1, ttlMin, tok);
      GoneStays(Run(start, acts[..j - 1], ttlMin), acts[j - 1], ttlMin, tok);
    }
  }

  // A logout or a refresh revokes its token: at every later moment of every run the
  // revocation is under way, or the token is not accepted.
  lemma {:induction false} HandlerRevokes(start: nat, acts: seq<Action>, i: nat, j: nat, ttlMin: nat, tok: Token)
    requires EARLIEST <= start
    requires i < j <= |acts| && Revokes(acts[i], tok) && tok in Run(start, acts[..i], ttlMin).entered
    ensures IsPending(Run(start, acts[..j], ttlMin), tok.jti) || !Accepted(Run(start, acts[..j], ttlMin), tok)
  {
    StaysGone(start, acts, i, j, ttlMin, tok);
    MarkersKeep(start, acts[..j], ttlMin);
  }

  // A sign-out-everywhere at one moment refuses, at every later moment of every run, all
  // tokens of its user issued before.
  lemma {:induction false} SignOutRevokes(start: nat, acts: seq<Action>, i: nat, j: nat, ttlMin: nat, tok: Token, t: Token)
    requires EARLIEST <= start && ttlMin <= 43200
    requires i < j <= |acts| && acts[i] == SignOutEverywhere(tok) && tok in Run(start, acts[..i], ttlMin).entered
    requires t.user == tok.user && t.issued < Run(start, acts[..i], ttlMin).now
    ensures !Accepted(Run(start, acts[..j], ttlMin), t)
  {
    OneMore(start, acts, i, ttlMin);
    assert acts[..j][..i + 1] == acts[..i + 1];
    SignoutsGrow(start, acts[..j], i + 1, tok.user, ttlMin);
    MarkersKeep(start, acts[..j], ttlMin);
    AcceptedExactly(start, acts[..j], ttlMin, t);
  }

  // ---------- How rotation fails ----------

  // Two different accepted tokens of one lineage, with no revocation under way.
  predicate HasTwins(s: State, t: Token, u: Token) {
    s.pending == {} && Accepted(s, t) && Accepted(s, u) && t.lineage == u.lineage && t != u
  }

  // Two requests enter with one token, and each refreshes it, its SET landing later.
  function OverlappingRun(ttlMin: nat): seq<Action> {
    var tok := FirstToken(ttlMin);
    [Login(7), Enter(tok), BeginRefresh(tok), BeginRefresh(tok), LandRevocation(Revocation(0, ttlMin * 60))]
  }

  lemma {:induction false} OverlappingRefreshes(ttlMin: nat)
    requires ttlMin > 0
    ensures HasTwins(Run(EARLIEST, OverlappingRun(ttlMin), ttlMin), FirstToken(ttlMin).(jti := 1), FirstToken(ttlMin).(jti := 2))
  {
    var tok := FirstToken(ttlMin);
    var acts := OverlappingRun(ttlMin);
    AfterLogin(ttlMin);
    RunOfTwo(EARLIEST, acts, ttlMin);
    OneMore(EARLIEST, acts, 2, ttlMin);
    OneMore(EARLIEST, acts, 3, ttlMin);
    OneMore(EARLIEST, acts, 4, ttlMin);
    assert acts[..5] == acts;
    var r := Revocation(0, ttlMin * 60);
    var s := Run(EARLIEST, acts[..4], ttlMin);
    assert s.tokens == {tok, tok.(jti := 1), tok.(jti := 2)} && s.pending == {r};
    assert Next(s, acts[4], ttlMin).pending == {};
  }

  // The same with each SET landing in the step that signs: the second request passed
  // requireAuth before the first one revoked the token.
  function EnteredTwiceRun(ttlMin: nat): seq<Action> {
    var tok := FirstToken(ttlMin);
    [Login(7), Enter(tok), Refresh(tok), Refresh(tok)]
  }

  lemma {:induction false} AtomicRefreshesOverlapToo(ttlMin: nat)
    requires ttlMin > 0
    ensures HasTwins(Run(EARLIEST, EnteredTwiceRun(ttlMin), ttlMin), FirstToken(ttlMin).(jti := 1), FirstToken(ttlMin).(jti := 2))
  {
    var tok := FirstToken(ttlMin);
    var acts := EnteredTwiceRun(ttlMin);
    AfterLogin(ttlMin);
    RunOfTwo(EARLIEST, acts, ttlMin);
    OneMore(EARLIEST, acts, 2, ttlMin);
    OneMore(EARLIEST, acts, 3, ttlMin);
    assert acts[..4] == acts;
    var s := Run(EARLIEST, acts[..3], ttlMin);
    assert s.tokens == {tok, tok.(jti := 1)} && s.redis.jtis.Keys == {0} && s.landed == {0};
    assert Next(s, acts[3], ttlMin).redis.jtis.Keys == {0};
  }

  // A request enters, its user signs out everywhere, the request refreshes in the next
  // second, and the marker that refused the old token runs out.
  function RevivalRun(ttlMin: nat): seq<Action> {
    var tok := FirstToken(ttlMin);
    [Login(7), Enter(tok), Tick(1), SignOutEverywhere(tok), Tick(999), BeginRefresh(tok), Tick(USER_DENYLIST_TTL_SECONDS * 1000)]
  }

  lemma {:induction false} LongSessionRevives(ttlMin: nat)
    requires ttlMin > MAX_TTL_MIN
    ensures NeverDoubles(EARLIEST, RevivalRun(ttlMin), ttlMin)
    ensures !NoTwins(Run(EARLIEST, RevivalRun(ttlMin), ttlMin))
  {
    var tok := FirstToken(ttlMin);
    var acts := RevivalRun(ttlMin);
    RevivalStart(ttlMin);
    var s := Run(EARLIEST, acts[..5], ttlMin);
    OneMore(EARLIEST, acts, 5, ttlMin);
    OneMore(EARLIEST, acts, 6, ttlMin);
    assert acts[..7] == acts;
    var t := Run(EARLIEST, acts, ttlMin);
    var new1 := Token(1, 7, 2, 2 + ttlMin * 60, 2000, 0);
    assert t.now == 2592002000 && t.now / 1000 == 2592002;
    assert Accepted(t, tok) && Accepted(t, new1);
    forall i | 0 <= i < |acts|
      ensures !Doubles(Run(EARLIEST, acts[..i], ttlMin), acts[i])
    {
      assert acts[i].BeginRefresh? || acts[i].Refresh? ==> i == 5;
    }
  }

  lemma {:induction false} RevivalStart(ttlMin: nat)
    requires ttlMin > MAX_TTL_MIN
    ensures var tok := FirstToken(ttlMin);
            Run(EARLIEST, RevivalRun(ttlMin)[..5], ttlMin)
            == State(2000, {tok}, Redis(map[], map[7 := UserMarker(1001, 2592001001)]), {tok}, {}, 1, 1, {}, map[7 := 1001])
  {
    var acts := RevivalRun(ttlMin);
    AfterLogin(ttlMin);
    RunOfTwo(EARLIEST, acts, ttlMin);
    OneMore(EARLIEST, acts, 2, ttlMin);
    OneMore(EARLIEST, acts, 3, ttlMin);
    OneMore(EARLIEST, acts, 4, ttlMin);
  }

  // The condition on refreshes is enough in every run exactly when a session lives at most thirty days.
  lemma {:induction false} RotationHoldsExactly(ttlMin: nat)
    ensures (forall start: nat, acts: seq<Action> ::
               EARLIEST <= start && NeverDoubles(start, acts, ttlMin) ==> NoTwins(Run(start, acts, ttlMin)))
            <==> ttlMin <= 43200
  {
    if ttlMin <= MAX_TTL_MIN {
      forall start: nat, acts: seq<Action> | EARLIEST <= start && NeverDoubles(start, acts, ttlMin)
        ensures NoTwins(Run(start, acts, ttlMin))
      {
        NoTwinsAt(start, acts, |acts|, ttlMin);
        assert acts[..|acts|] == acts;
      }
    } else {
      LongSessionRevives(ttlMin);
    }
  }
}
