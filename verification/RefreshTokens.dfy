// Refresh-token rotation: logins open sessions, each refresh trades one token for the next,
// and a revoked token that is presented again ends them all.
module RefreshTokens {
  import opened Wrappers
  import opened Text

  type UserId = string
  type Token = string

  // A row of refresh_tokens. Tokens stand for their hashes.
  datatype Record = Record(user: UserId, expiresAt: int, revokedAt: Option<int>)

  type Tokens = map<Token, Record>

  datatype Status = Active | Suspended

  datatype Answer = Pair(token: Token) | InvalidCredentials | AccountSuspended | Conflict | NotFound | Done

  // ---- The store's operations ----

  function Stored(tokens: Tokens, user: UserId, token: Token, expiresAt: int): Tokens {
    tokens[token := Record(user, expiresAt, None)]
  }

  function RevokedAt(r: Record, now: int): Record {
    if r.revokedAt.Some? then r else r.(revokedAt := Some(now))
  }

  function Revoked(tokens: Tokens, token: Token, now: int): Tokens {
    if token in tokens then tokens[token := RevokedAt(tokens[token], now)] else tokens
  }

  function UserRevoked(tokens: Tokens, user: UserId, now: int): Tokens {
    map t | t in tokens :: if tokens[t].user == user then RevokedAt(tokens[t], now) else tokens[t]
  }

  class Repository {
    var users: map<UserId, Status>
    var tokens: Tokens

    constructor ()
      ensures users == map[] && tokens == map[]
    {
      users, tokens := map[], map[];
    }

    method StoreRefreshToken(user: UserId, token: Token, expiresAt: int)
      modifies this`tokens
      ensures tokens == Stored(old(tokens), user, token, expiresAt)
    {
      tokens := tokens[token := Record(user, expiresAt, None)];
    }

    // Sets the time of revocation unless the token is unknown or revoked already.
    method RevokeRefreshToken(token: Token, now: int)
      modifies this`tokens
      ensures tokens == Revoked(old(tokens), token, now)
    {
      if token in tokens && tokens[token].revokedAt.None? {
        tokens := tokens[token := tokens[token].(revokedAt := Some(now))];
      }
    }

    // Sets it on every token of the user that is not revoked yet.
    method RevokeUserRefreshTokens(user: UserId, now: int)
      modifies this`tokens
      ensures tokens == UserRevoked(old(tokens), user, now)
    {
      ghost var before := tokens;
      var rest := tokens.Keys;
      while rest != {}
        invariant rest <= tokens.Keys == before.Keys
        invariant tokens == map t | t in before ::
          if t !in rest && before[t].user == user then RevokedAt(before[t], now) else before[t]
      {
        var t :| t in rest;
        if tokens[t].user == user && tokens[t].revokedAt.None? {
          tokens := tokens[t := tokens[t].(revokedAt := Some(now))];
        }
        rest := rest - {t};
      }
    }
  }

  // ---- Calls as steps ----

  // Logins count the sessions issued to a user; traded records the tokens that were
  // exchanged for a new pair, in order.
  datatype State = State(now: int, users: map<UserId, Status>, tokens: Tokens, logins: seq<UserId>, traded: seq<Token>)

  // What a caller does. drawn is the token drawn if one is issued; Login stands for every
  // way of logging in to an existing account, proven telling whether the proof of identity holds.
  datatype Call =
    | Wait(ms: nat)
    | Register(user: UserId, drawn: Token)
    | Login(user: UserId, proven: bool, drawn: Token)
    | Refresh(token: Token, drawn: Token)
    | Logout(token: Token)
    | RevokeSessions(user: UserId)
    | SetStatus(user: UserId, status: Status)

  // The token drawn is one never seen before.
  predicate Fresh(s: State, c: Call) {
    match c
    case Register(_, drawn) => drawn !in s.tokens
    case Login(_, _, drawn) => drawn !in s.tokens
    case Refresh(_, drawn) => drawn !in s.tokens
    case _ => true
  }

  function Issued(s: State, ttl: int, user: UserId, drawn: Token): Tokens {
    Stored(s.tokens, user, drawn, s.now + ttl)
  }

  function LoginAnswer(s: State, user: UserId, proven: bool, drawn: Token): Answer {
    if user !in s.users then InvalidCredentials
    else if s.users[user].Suspended? then AccountSuspended
    else if !proven then InvalidCredentials
    else Pair(drawn)
  }

  function RefreshAnswer(s: State, token: Token, drawn: Token): Answer {
    if token !in s.tokens then InvalidCredentials
    else if s.tokens[token].revokedAt.Some? then InvalidCredentials
    else if s.now > s.tokens[token].expiresAt then InvalidCredentials
    else if s.tokens[token].user !in s.users then InvalidCredentials
    else if s.users[s.tokens[token].user].Suspended? then AccountSuspended
    else Pair(drawn)
  }

  function AnswerTo(s: State, c: Call): Answer {
    match c
    case Wait(_) => Done
    case Register(user, drawn) => if user in s.users then Conflict else Pair(drawn)
    case Login(user, proven, drawn) => LoginAnswer(s, user, proven, drawn)
    case Refresh(token, drawn) => RefreshAnswer(s, token, drawn)
    case Logout(_) => Done
    case RevokeSessions(_) => Done
    case SetStatus(user, _) => if user in s.users then Done else NotFound
  }

  function AfterRefresh(s: State, ttl: int, token: Token, drawn: Token): State {
    if RefreshAnswer(s, token, drawn).Pair? then
      s.(tokens := Stored(Revoked(s.tokens, token, s.now), s.tokens[token].user, drawn, s.now + ttl),
         traded := s.traded + [token])
    else if token in s.tokens && s.tokens[token].revokedAt.Some? then
      s.(tokens := UserRevoked(s.tokens, s.tokens[token].user, s.now))
    else s
  }

  function Apply(s: State, ttl: int, c: Call): State {
    match c
    case Wait(ms) => s.(now := s.now + ms)
    case Register(user, drawn) =>
      if user in s.users then s
      else s.(users := s.users[user := Active], tokens := Issued(s, ttl, user, drawn), logins := s.logins + [user])
    case Login(user, proven, drawn) =>
      if LoginAnswer(s, user, proven, drawn).Pair?
      then s.(tokens := Issued(s, ttl, user, drawn), logins := s.logins + [user]) else s
    case Refresh(token, drawn) => AfterRefresh(s, ttl, token, drawn)
    case Logout(token) => s.(tokens := Revoked(s.tokens, token, s.now))
    case RevokeSessions(user) => s.(tokens := UserRevoked(s.tokens, user, s.now))
    case SetStatus(user, status) =>
      if user !in s.users then s
      else s.(users := s.users[user := status],
              tokens := if status.Suspended? then UserRevoked(s.tokens, user, s.now) else s.tokens)
  }

  // The calls on the classes do what the steps say.
  class Service {
    const repo: Repository
    const ttl: int

    constructor (repo: Repository, ttl: int)
      ensures this.repo == repo && this.ttl == ttl
    {
      this.repo, this.ttl := repo, ttl;
    }

    ghost function View(now: int): State
      reads repo
    {
      State(now, repo.users, repo.tokens, [], [])
    }

    // The call c at now answered r and left the repository as the step does.
    ghost predicate Does(before: State, c: Call, r: Answer)
      reads repo
    {
      && r == AnswerTo(before, c)
      && repo.users == Apply(before, ttl, c).users
      && repo.tokens == Apply(before, ttl, c).tokens
    }

    method RegisterUser(user: UserId, drawn: Token, now: int) returns (r: Answer)
      modifies repo
      ensures Does(old(View(now)), Register(user, drawn), r)
    {
      if user in repo.users {
        return Conflict;
      }
      repo.users := repo.users[user := Active];
      repo.StoreRefreshToken(user, drawn, now + ttl);
      return Pair(drawn);
    }

    method LoginUser(user: UserId, proven: bool, drawn: Token, now: int) returns (r: Answer)
      modifies repo
      ensures Does(old(View(now)), Login(user, proven, drawn), r)
    {
      if user !in repo.users {
        return InvalidCredentials;
      }
      if repo.users[user].Suspended? {
        return AccountSuspended;
      }
      if !proven {
        return InvalidCredentials;
      }
      repo.StoreRefreshToken(user, drawn, now + ttl);
      return Pair(drawn);
    }

    method RefreshSession(token: Token, drawn: Token, now: int) returns (r: Answer)
      modifies repo
      ensures Does(old(View(now)), Refresh(token, drawn), r)
    {
      if token !in repo.tokens {
        return InvalidCredentials;
      }
      var rec := repo.tokens[token];
      if rec.revokedAt.Some? {
        repo.RevokeUserRefreshTokens(rec.user, now);
        return InvalidCredentials;
      }
      if now > rec.expiresAt {
        return InvalidCredentials;
      }
      if rec.user !in repo.users {
        return InvalidCredentials;
      }
      if repo.users[rec.user].Suspended? {
        return AccountSuspended;
      }
      repo.RevokeRefreshToken(token, now);
      repo.StoreRefreshToken(rec.user, drawn, now + ttl);
      return Pair(drawn);
    }

    method LogoutSession(token: Token, now: int) returns (r: Answer)
      modifies repo
      ensures Does(old(View(now)), Logout(token), r)
    {
      repo.RevokeRefreshToken(token, now);
      return Done;
    }

    method RevokeUserSessions(user: UserId, now: int) returns (r: Answer)
      modifies repo
      ensures Does(old(View(now)), RevokeSessions(user), r)
    {
      repo.RevokeUserRefreshTokens(user, now);
      return Done;
    }

    // The handler: the status first, then the sessions.
    method SetUserStatus(user: UserId, status: Status, now: int) returns (r: Answer)
      modifies repo
      ensures Does(old(View(now)), SetStatus(user, status), r)
    {
      if user !in repo.users {
        return NotFound;
      }
      repo.users := repo.users[user := status];
      if status.Suspended? {
        repo.RevokeUserRefreshTokens(user, now);
      }
      return Done;
    }
  }

  // ---- What every call keeps ----

  ghost function Unrevoked(tokens: Tokens, user: UserId): set<Token> {
    set t | t in tokens && tokens[t].user == user && tokens[t].revokedAt.None?
  }

  // Every record stays, with its owner, and a revocation with its time.
  ghost predicate Keeps(before: Tokens, after: Tokens) {
    forall t :: t in before ==>
      && t in after && after[t].user == before[t].user && after[t].expiresAt == before[t].expiresAt
      && (before[t].revokedAt.Some? ==> after[t].revokedAt == before[t].revokedAt)
  }

  lemma StepKeepsRevocations(s: State, ttl: int, c: Call)
    requires Fresh(s, c)
    ensures Keeps(s.tokens, Apply(s, ttl, c).tokens)
  {
  }

  // How many sessions a user has opened.
  function LoginsOf(logins: seq<UserId>, user: UserId): nat {
    if logins == [] then 0
    else LoginsOf(logins[..|logins| - 1], user) + if logins[|logins| - 1] == user then 1 else 0
  }

  lemma LoginsSnoc(logins: seq<UserId>, login: UserId, user: UserId)
    ensures LoginsOf(logins + [login], user) == LoginsOf(logins, user) + if login == user then 1 else 0
  {
    assert (logins + [login])[..|logins|] == logins;
  }

  lemma StoredUnrevoked(tokens: Tokens, owner: UserId, drawn: Token, expiresAt: int, user: UserId)
    requires drawn !in tokens
    ensures Unrevoked(Stored(tokens, owner, drawn, expiresAt), user)
         == Unrevoked(tokens, user) + if owner == user then {drawn} else {}
  {
  }

  lemma RevokedUnrevoked(tokens: Tokens, token: Token, now: int, user: UserId)
    ensures Unrevoked(Revoked(tokens, token, now), user) == Unrevoked(tokens, user) - {token}
  {
  }

  lemma UserRevokedUnrevoked(tokens: Tokens, owner: UserId, now: int, user: UserId)
    ensures Unrevoked(UserRevoked(tokens, owner, now), user) == if owner == user then {} else Unrevoked(tokens, user)
  {
  }

  // The effect of a call on one user's unrevoked tokens: nothing but opening a session
  // makes them more.
  lemma StepCounts(s: State, ttl: int, c: Call, user: UserId)
    requires Fresh(s, c)
    ensures var s' := Apply(s, ttl, c);
            && |Unrevoked(s'.tokens, user)| + LoginsOf(s.logins, user)
               <= |Unrevoked(s.tokens, user)| + LoginsOf(s'.logins, user)
            && (s'.logins == s.logins && Unrevoked(s.tokens, user) == {} ==> Unrevoked(s'.tokens, user) == {})
  {
    match c
    case Wait(_) =>
    case Register(u, drawn) => OpensSession(s, ttl, u, drawn, user);
    case Login(u, _, drawn) => OpensSession(s, ttl, u, drawn, user);
    case Refresh(token, drawn) => RefreshCounts(s, ttl, token, drawn, user);
    case Logout(token) =>
      RevokedUnrevoked(s.tokens, token, s.now, user);
      SubsetIsSmaller(Unrevoked(s.tokens, user) - {token}, Unrevoked(s.tokens, user));
    case RevokeSessions(u) => UserRevokedUnrevoked(s.tokens, u, s.now, user);
    case SetStatus(u, _) => UserRevokedUnrevoked(s.tokens, u, s.now, user);
  }

  lemma OpensSession(s: State, ttl: int, owner: UserId, drawn: Token, user: UserId)
    requires drawn !in s.tokens
    ensures |Unrevoked(Issued(s, ttl, owner, drawn), user)| + LoginsOf(s.logins, user)
         == |Unrevoked(s.tokens, user)| + LoginsOf(s.logins + [owner], user)
  {
    StoredUnrevoked(s.tokens, owner, drawn, s.now + ttl, user);
    LoginsSnoc(s.logins, owner, user);
  }

  lemma RefreshCounts(s: State, ttl: int, token: Token, drawn: Token, user: UserId)
    requires drawn !in s.tokens
    ensures var s' := AfterRefresh(s, ttl, token, drawn);
            && |Unrevoked(s'.tokens, user)| <= |Unrevoked(s.tokens, user)|
            && (Unrevoked(s.tokens, user) == {} ==> Unrevoked(s'.tokens, user) == {})
  {
    if RefreshAnswer(s, token, drawn).Pair? {
      var owner := s.tokens[token].user;
      RevokedUnrevoked(s.tokens, token, s.now, user);
      StoredUnrevoked(Revoked(s.tokens, token, s.now), owner, drawn, s.now + ttl, user);
      if owner == user {
        assert token in Unrevoked(s.tokens, user);
      }
      SubsetIsSmaller(Unrevoked(s.tokens, user) - {token}, Unrevoked(s.tokens, user));
    } else if token in s.tokens {
      UserRevokedUnrevoked(s.tokens, s.tokens[token].user, s.now, user);
    }
  }

  // A suspended user has no unrevoked token.
  ghost predicate SuspendedHaveNone(s: State) {
    forall u :: u in s.users && s.users[u].Suspended? ==> Unrevoked(s.tokens, u) == {}
  }

  lemma StepKeepsSuspendedOut(s: State, ttl: int, c: Call)
    requires SuspendedHaveNone(s) && Fresh(s, c)
    ensures SuspendedHaveNone(Apply(s, ttl, c))
  {
    var s' := Apply(s, ttl, c);
    forall u | u in s'.users && s'.users[u].Suspended? ensures Unrevoked(s'.tokens, u) == {} {
      StepCounts(s, ttl, c, u);
      match c
      case Register(user, drawn) => StoredUnrevoked(s.tokens, user, drawn, s.now + ttl, u);
      case Login(user, _, drawn) => StoredUnrevoked(s.tokens, user, drawn, s.now + ttl, u);
      case SetStatus(user, _) => UserRevokedUnrevoked(s.tokens, user, s.now, u);
      case _ =>
    }
  }

  // Every token that was traded is revoked by now, and none was traded twice.
  ghost predicate TradedOnce(s: State) {
    && Distinct(s.traded)
    && forall t :: t in s.traded ==> t in s.tokens && s.tokens[t].revokedAt.Some?
  }

  lemma StepKeepsTradedOnce(s: State, ttl: int, c: Call)
    requires TradedOnce(s) && Fresh(s, c)
    ensures TradedOnce(Apply(s, ttl, c))
  {
    StepKeepsRevocations(s, ttl, c);
  }

  // ---- All runs ----

  function Initial(now: int): State {
    State(now, map[], map[], [], [])
  }

  function After(s: State, ttl: int, calls: seq<Call>): State {
    if calls == [] then s else Apply(After(s, ttl, calls[..|calls| - 1]), ttl, calls[|calls| - 1])
  }

  // Every token is drawn fresh.
  predicate AllFresh(s: State, ttl: int, calls: seq<Call>) {
    calls == []
    || (AllFresh(s, ttl, calls[..|calls| - 1]) && Fresh(After(s, ttl, calls[..|calls| - 1]), calls[|calls| - 1]))
  }

  lemma {:induction false} RevocationIsPermanent(s: State, ttl: int, calls: seq<Call>, token: Token)
    requires AllFresh(s, ttl, calls) && token in s.tokens && s.tokens[token].revokedAt.Some?
    ensures var s' := After(s, ttl, calls);
            token in s'.tokens && s'.tokens[token].revokedAt == s.tokens[token].revokedAt
  {
    if calls != [] {
      RevocationIsPermanent(s, ttl, calls[..|calls| - 1], token);
      StepKeepsRevocations(After(s, ttl, calls[..|calls| - 1]), ttl, calls[|calls| - 1]);
    }
  }

  // In every run from the start: no token yields a pair twice, a suspended user has no
  // unrevoked token, and nobody has more of them than sessions opened.
  lemma {:induction false} RunsAreSafe(now: int, ttl: int, calls: seq<Call>, user: UserId)
    requires AllFresh(Initial(now), ttl, calls)
    ensures var s := After(Initial(now), ttl, calls);
            TradedOnce(s) && SuspendedHaveNone(s) && |Unrevoked(s.tokens, user)| <= LoginsOf(s.logins, user)
  {
    if calls != [] {
      var init, call := calls[..|calls| - 1], calls[|calls| - 1];
      RunsAreSafe(now, ttl, init, user);
      var s := After(Initial(now), ttl, init);
      StepKeepsTradedOnce(s, ttl, call);
      StepKeepsSuspendedOut(s, ttl, call);
      StepCounts(s, ttl, call, user);
    }
  }

  // Once a revoked token is presented, its user has no unrevoked token until a new session
  // is opened, whatever else is called.
  lemma {:induction false} ReuseEndsAllSessions(s: State, ttl: int, token: Token, drawn: Token, calls: seq<Call>)
    requires token in s.tokens && s.tokens[token].revokedAt.Some? && drawn !in s.tokens
    requires var s1 := AfterRefresh(s, ttl, token, drawn);
             AllFresh(s1, ttl, calls)
             && LoginsOf(After(s1, ttl, calls).logins, s.tokens[token].user)
                == LoginsOf(s1.logins, s.tokens[token].user)
    ensures Unrevoked(After(AfterRefresh(s, ttl, token, drawn), ttl, calls).tokens, s.tokens[token].user) == {}
  {
    var user := s.tokens[token].user;
    UserRevokedUnrevoked(s.tokens, user, s.now, user);
    NoneUntilLogin(AfterRefresh(s, ttl, token, drawn), ttl, calls, user);
  }

  lemma {:induction false} NoneUntilLogin(s: State, ttl: int, calls: seq<Call>, user: UserId)
    requires AllFresh(s, ttl, calls) && Unrevoked(s.tokens, user) == {}
    ensures |Unrevoked(After(s, ttl, calls).tokens, user)| + LoginsOf(s.logins, user)
         <= LoginsOf(After(s, ttl, calls).logins, user)
  {
    if calls != [] {
      NoneUntilLogin(s, ttl, calls[..|calls| - 1], user);
      StepCounts(After(s, ttl, calls[..|calls| - 1]), ttl, calls[|calls| - 1], user);
    }
  }

  // A token yields a pair exactly when it is known, unrevoked and not expired, and its
  // owner exists and is not suspended; then it is revoked and the new one is not.
  lemma RefreshYieldsIff(s: State, ttl: int, token: Token, drawn: Token)
    requires drawn !in s.tokens && SuspendedHaveNone(s)
    ensures var s' := AfterRefresh(s, ttl, token, drawn);
            && (RefreshAnswer(s, token, drawn).Pair? <==>
                  token in s.tokens && token in Unrevoked(s.tokens, s.tokens[token].user)
                  && s.now <= s.tokens[token].expiresAt && s.tokens[token].user in s.users)
            && (RefreshAnswer(s, token, drawn).Pair? ==>
                  var user := s.tokens[token].user;
                  Unrevoked(s'.tokens, user) == Unrevoked(s.tokens, user) - {token} + {drawn})
  {
    if RefreshAnswer(s, token, drawn).Pair? {
      var user := s.tokens[token].user;
      RevokedUnrevoked(s.tokens, token, s.now, user);
      StoredUnrevoked(Revoked(s.tokens, token, s.now), user, drawn, s.now + ttl, user);
    }
  }
}
