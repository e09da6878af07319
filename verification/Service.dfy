/** AuthService over the in-memory repositories. Each method makes the calls of one use case in order and
    is proved against the function of the same name in Auth. */
module Service {
  import opened Wrappers
  import opened Domain
  import opened Tables
  import opened Auth
  import opened Repos

  class AuthService {
    const users: UserRepo
    const tokens: TokenRepo
    const clock: Clock
    const cfg: Config

    ghost predicate Valid()
      reads users, tokens
    {
      users.Valid() && tokens.Valid() && cfg.ttl > 0
    }

    ghost function State(): Store
      reads users, users.Objects(), tokens, tokens.Objects()
    {
      Store(users.Table(), tokens.Table())
    }

    constructor (users: UserRepo, tokens: TokenRepo, clock: Clock, cfg: Config)
      requires users.Valid() && tokens.Valid()
      ensures Valid() && this.users == users && this.tokens == tokens && this.clock == clock
      ensures this.cfg == cfg.(ttl := if cfg.ttl > 0 then cfg.ttl else 2_592_000_000_000_000)
    {
      this.users, this.tokens, this.clock := users, tokens, clock;
      this.cfg := Wire(cfg);
    }

    method Register(email: string, password: string, mint: Mint, f: Faults) returns (reply: Reply)
      requires Valid() && mint.userId !in users.byId
      modifies users, tokens
      ensures Valid()
      ensures fresh(users.Objects() - old(users.Objects())) && fresh(tokens.Objects() - old(tokens.Objects()))
      ensures (State(), reply) == DoRegister(cfg, old(State()), email, password, clock.Now(), mint, f)
    {
      hide UserRepo.Table, TokenRepo.Table, UserRepo.Valid, TokenRepo.Valid;
      hide Read, Write, FindToken, UpdateToken, RevokeAll, FindUserById;
      var now := clock.Now();
      var row := NewUser(cfg, email, password, now, mint);
      if row.Err? {
        return Failed(row.error);
      }
      var user := new User(row.value);
      var err := users.Create(user, f.user);
      if err.Some? {
        return Failed(err.value);
      }
      var pair := StartSession(user, now, mint, f);
      return AuthResult(user.Row(), pair);
    }

    method Login(email: string, password: string, mint: Mint, f: Faults) returns (reply: Reply)
      requires Valid()
      modifies tokens
      ensures Valid() && fresh(tokens.Objects() - old(tokens.Objects()))
      ensures (State(), reply) == DoLogin(cfg, old(State()), email, password, clock.Now(), mint, f)
    {
      hide UserRepo.Table, TokenRepo.Table, UserRepo.Valid, TokenRepo.Valid;
      hide Read, Write, FindToken, UpdateToken, RevokeAll, FindUserById;
      var now := clock.Now();
      var normalized := cfg.normalizeEmail(email);
      if normalized.None? {
        return Failed(InvalidCredentials);
      }
      var user, err := users.FindByEmail(normalized.value, f.user);
      assert tokens.Objects() == old(tokens.Objects());
      if err == Some(UserNotFound) {
        return Failed(InvalidCredentials);
      }
      if err.Some? {
        return Failed(err.value);
      }
      var refused := user.Row().Authenticate(password, cfg.hasher);
      if refused.Some? {
        return Failed(refused.value);
      }
      var pair := StartSession(user, now, mint, f);
      assert users.Objects() == old(users.Objects());
      return AuthResult(user.Row(), pair);
    }

    method Refresh(secret: string, mint: Mint, f: Faults) returns (reply: Reply)
      requires Valid()
      modifies tokens, tokens.Objects()
      ensures Valid() && fresh(tokens.Objects() - old(tokens.Objects()))
      ensures (State(), reply) == DoRefresh(cfg, old(State()), secret, clock.Now(), mint, f)
    {
      hide UserRepo.Table, TokenRepo.Table, UserRepo.Valid, TokenRepo.Valid;
      hide Read, Write, FindToken, UpdateToken, RevokeAll, FindUserById;
      hide Auth.StartSession;
      var now := clock.Now();
      var token, err := tokens.FindByHash(cfg.hashToken(secret), f.find);
      assert users.Objects() == old(users.Objects());
      if err.Some? {
        return Failed(err.value);
      }
      var invalid := token.Validate(now);
      if invalid.Some? {
        if invalid == Some(TokenRevoked) {
          var rerr := tokens.RevokeAllForUser(token.userId, now, f.write);
          if rerr.Some? {
            return Failed(rerr.value);
          }
        }
        return Failed(invalid.value);
      }
      var user, uerr := users.FindById(token.userId, f.user);
      if uerr.Some? {
        return Failed(uerr.value);
      }
      if user.status == Suspended {
        return Failed(UserIsSuspended);
      }
      token.Revoke(now);
      err := tokens.Update(token, f.write);
      if err.Some? {
        return Failed(err.value);
      }
      var pair := StartSession(user, now, mint, f);
      assert users.Objects() == old(users.Objects());
      return if pair.Ok? then Refreshed(pair.value) else Failed(pair.error);
    }

    method Logout(secret: string, f: Faults) returns (reply: Reply)
      requires Valid()
      modifies tokens
      ensures Valid() && fresh(tokens.Objects() - old(tokens.Objects()))
      ensures (State(), reply) == DoLogout(cfg, old(State()), secret, clock.Now(), f)
    {
      hide UserRepo.Table, TokenRepo.Table, UserRepo.Valid, TokenRepo.Valid;
      hide Read, Write, FindToken, UpdateToken, RevokeAll, FindUserById;
      var now := clock.Now();
      var token, err := tokens.FindByHash(cfg.hashToken(secret), f.find);
      assert users.Objects() == old(users.Objects());
      if err == Some(TokenNotFound) {
        return LoggedOut;
      }
      if err.Some? {
        return Failed(err.value);
      }
      if token.revokedAt.Some? {
        return LoggedOut;
      }
      token.Revoke(now);
      err := tokens.Update(token, f.write);
      return if err.Some? then Failed(err.value) else LoggedOut;
    }

    method StartSession(user: User, now: Time, mint: Mint, f: Faults) returns (pair: Result<TokenPair, Error>)
      requires tokens.Valid()
      modifies tokens
      ensures tokens.Valid() && fresh(tokens.Objects() - old(tokens.Objects()))
      ensures (tokens.Table(), pair) == Auth.StartSession(cfg, old(tokens.Table()), user.Row(), now, mint, f)
    {
      hide UserRepo.Table, TokenRepo.Table, UserRepo.Valid, TokenRepo.Valid;
      hide Read, Write, FindToken, UpdateToken, RevokeAll, FindUserById;
      var row := NewRefreshToken(cfg, user.id, now, mint);
      if row.Err? {
        return Err(row.error);
      }
      var refresh := new RefreshToken(row.value);
      var err := tokens.Create(refresh, f.create);
      if err.Some? {
        return Err(err.value);
      }
      if !f.issue.NoFault? {
        return Err(Infrastructure);
      }
      var (access, accessExpiresAt) := cfg.issue(user.Row(), now);
      return Ok(TokenPair(access, accessExpiresAt, mint.secret.value, refresh.expiresAt));
    }
  }

  /** An operator suspends an account: find, change the copy, write it back. */
  method SuspendAccount(users: UserRepo, userId: Id, now: Time, f: Faults) returns (reply: Reply)
    requires users.Valid()
    modifies users
    ensures users.Valid() && fresh(users.Objects() - old(users.Objects()))
    ensures forall tokens ::
              (Store(users.Table(), tokens), reply) == DoSuspend(Store(old(users.Table()), tokens), userId, now, f)
  {
    var user, err := users.FindById(userId, f.user);
    if err.Some? {
      return Failed(err.value);
    }
    user.Suspend(now);
    err := users.Update(user, f.write);
    return if err.Some? then Failed(err.value) else SuspensionStored;
  }
}
