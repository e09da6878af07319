/** The use cases of AuthService as functions on the two tables, each run without interruption. Every
    call to a repository or to the issuer may fail. */
module Auth {
  import opened Wrappers
  import opened Base64
  import opened Domain
  import opened Tables

  const DEFAULT_REFRESH_TTL: int := 30 * 24 * 3600 * 1_000_000_000

  /** Collaborators whose inner workings are not modelled. */
  datatype Config = Config(
    ttl: int,
    hashToken: string -> string,
    normalizeEmail: string -> Option<string>,
    hasher: PasswordHasher,
    issue: (UserRow, Time) -> (string, Time))

  function Wire(cfg: Config): (r: Config)
    ensures r == cfg.(ttl := if cfg.ttl > 0 then cfg.ttl else 2_592_000_000_000_000)
  {
    if cfg.ttl <= 0 then cfg.(ttl := DEFAULT_REFRESH_TTL) else cfg
  }

  /** What the random sources deliver during one call; None where they fail. */
  datatype Mint = Mint(userId: Id, salt: Option<seq<byte>>, tokenId: Id, secret: Option<string>)

  /** What happens to each outside call of one use case: on users, FindByHash, the write on an existing
      row (Update or RevokeAllForUser), Create of a token, and the issuer. */
  datatype Faults = Faults(user: Fault, find: Fault, write: Fault, create: Fault, issue: Fault)

  const NO_FAULTS := Faults(NoFault, NoFault, NoFault, NoFault, NoFault)

  datatype TokenPair = TokenPair(
    accessToken: string, accessExpiresAt: Time,
    refreshToken: string, refreshExpiresAt: Time)

  datatype Call =
    | Register(email: string, password: string)
    | Login(email: string, password: string)
    | Refresh(secret: string)
    | Logout(secret: string)
    | Suspend(userId: Id)

  datatype Reply =
    | Authenticated(user: UserRow, pair: TokenPair)
    | Refreshed(pair: TokenPair)
    | LoggedOut
    | SuspensionStored
    | Failed(error: Error)

  datatype Store = Store(users: UserTable, tokens: TokenTable)

  // ---------------------------------------------------------------- Constructors

  function NewUser(cfg: Config, email: string, password: string, now: Time, mint: Mint): Result<UserRow, Error> {
    if cfg.normalizeEmail(email).None? then Err(InvalidEmail)
    else if ValidatePassword(password).Some? then Err(ValidatePassword(password).value)
    else
      var hash := cfg.hasher.hash(password, mint.salt);
      if hash.Err? then Err(hash.error)
      else Ok(UserRow(mint.userId, cfg.normalizeEmail(email).value, hash.value, Active, now, now))
  }

  function NewRefreshToken(cfg: Config, userId: Id, now: Time, mint: Mint): Result<TokenRow, Error> {
    if cfg.ttl <= 0 then Err(BadTtl)
    else if mint.secret.None? then Err(NoRandomness)
    else Ok(TokenRow(mint.tokenId, userId, cfg.hashToken(mint.secret.value), now, now + cfg.ttl, None))
  }

  // ---------------------------------------------------------------- Use cases

  function StartSession(cfg: Config, t: TokenTable, user: UserRow, now: Time, mint: Mint, f: Faults)
    : (TokenTable, Result<TokenPair, Error>)
  {
    var row := NewRefreshToken(cfg, user.id, now, mint);
    if row.Err? then (t, Err(row.error))
    else
      var (t', err) := Write(t, CreateToken(t, row.value), f.create);
      if err.Some? then (t', Err(err.value))
      else if !f.issue.NoFault? then (t', Err(Infrastructure))
      else
        var (access, accessExpiresAt) := cfg.issue(user, now);
        (t', Ok(TokenPair(access, accessExpiresAt, mint.secret.value, row.value.expiresAt)))
  }

  function AuthResult(user: UserRow, pair: Result<TokenPair, Error>): Reply {
    if pair.Ok? then Authenticated(user, pair.value) else Failed(pair.error)
  }

  ghost function DoRegister(cfg: Config, s: Store, email: string, password: string, now: Time, mint: Mint, f: Faults)
    : (Store, Reply)
  {
    var user := NewUser(cfg, email, password, now, mint);
    if user.Err? then (s, Failed(user.error))
    else
      var (users, err) := Write(s.users, CreateUser(s.users, user.value), f.user);
      if err.Some? then (Store(users, s.tokens), Failed(err.value))
      else
        var (tokens, pair) := StartSession(cfg, s.tokens, user.value, now, mint, f);
        (Store(users, tokens), AuthResult(user.value, pair))
  }

  ghost function DoLogin(cfg: Config, s: Store, email: string, password: string, now: Time, mint: Mint, f: Faults)
    : (Store, Reply)
  {
    var normalized := cfg.normalizeEmail(email);
    if normalized.None? then (s, Failed(InvalidCredentials))
    else
      var user := Read(FindUserByEmail(s.users, normalized.value), f.user);
      if user.Err? then (s, Failed(if user.error == UserNotFound then InvalidCredentials else user.error))
      else
        var refused := user.value.Authenticate(password, cfg.hasher);
        if refused.Some? then (s, Failed(refused.value))
        else
          var (tokens, pair) := StartSession(cfg, s.tokens, user.value, now, mint, f);
          (s.(tokens := tokens), AuthResult(user.value, pair))
  }

  function DoRefresh(cfg: Config, s: Store, secret: string, now: Time, mint: Mint, f: Faults): (Store, Reply) {
    var found := Read(FindToken(s.tokens, cfg.hashToken(secret)), f.find);
    if found.Err? then (s, Failed(found.error))
    else
      var token := found.value;
      var invalid := token.Validate(now);
      if invalid == Some(TokenRevoked) then
        var (tokens, err) := Write(s.tokens, (RevokeAll(s.tokens, token.userId, now), None), f.write);
        (s.(tokens := tokens), Failed(if err.Some? then err.value else TokenRevoked))
      else if invalid.Some? then (s, Failed(invalid.value))
      else
        var user := Read(FindUserById(s.users, token.userId), f.user);
        if user.Err? then (s, Failed(user.error))
        else if user.value.status == Suspended then (s, Failed(UserIsSuspended))
        else
          var (tokens, err) := Write(s.tokens, UpdateToken(s.tokens, token.Revoke(now)), f.write);
          if err.Some? then (s.(tokens := tokens), Failed(err.value))
          else
            var (tokens', pair) := StartSession(cfg, tokens, user.value, now, mint, f);
            (s.(tokens := tokens'), if pair.Ok? then Refreshed(pair.value) else Failed(pair.error))
  }

  function DoLogout(cfg: Config, s: Store, secret: string, now: Time, f: Faults): (Store, Reply) {
    var found := Read(FindToken(s.tokens, cfg.hashToken(secret)), f.find);
    if found.Err? then (s, if found.error == TokenNotFound then LoggedOut else Failed(found.error))
    else if found.value.revokedAt.Some? then (s, LoggedOut)
    else
      var (tokens, err) := Write(s.tokens, UpdateToken(s.tokens, found.value.Revoke(now)), f.write);
      (s.(tokens := tokens), if err.Some? then Failed(err.value) else LoggedOut)
  }

  /** Not a use case of AuthService: how an operator suspends an account through the user repository. */
  function DoSuspend(s: Store, userId: Id, now: Time, f: Faults): (Store, Reply) {
    var user := Read(FindUserById(s.users, userId), f.user);
    if user.Err? then (s, Failed(user.error))
    else
      var (users, err) := Write(s.users, UpdateUser(s.users, user.value.Suspend(now)), f.write);
      (s.(users := users), if err.Some? then Failed(err.value) else SuspensionStored)
  }

  /** One call, when it is made, and everything that is outside the program's control. */
  datatype Event = Event(call: Call, now: Time, mint: Mint, faults: Faults)

  ghost function Do(cfg: Config, s: Store, e: Event): (Store, Reply) {
    match e.call
    case Register(email, password) => DoRegister(cfg, s, email, password, e.now, e.mint, e.faults)
    case Login(email, password) => DoLogin(cfg, s, email, password, e.now, e.mint, e.faults)
    case Refresh(secret) => DoRefresh(cfg, s, secret, e.now, e.mint, e.faults)
    case Logout(secret) => DoLogout(cfg, s, secret, e.now, e.faults)
    case Suspend(userId) => DoSuspend(s, userId, e.now, e.faults)
  }
}
