/** The use cases with one step per repository or issuer call. Any number of calls are in flight, each
    with a program counter and with copies of rows that may have gone stale; steps interleave freely and
    any step may fail. */
module Steps {
  import opened Wrappers
  import opened Domain
  import opened Tables
  import opened Stores
  import opened Auth

  // ---------------------------------------------------------------- Either token store

  /** The table by hash may keep times at any resolution. At that of a nanosecond, which is that of the
      clock, it is the repository in memory. */
  datatype TokenStore = Mem(byHash: TokenTable, tick: Tick) | Sql(rows: Rows)

  ghost function Create(s: TokenStore, row: TokenRow, f: Fault): (TokenStore, Option<Error>) {
    match s
    case Mem(t, tick) => var (t', err) := Write(t, CreateToken(t, row.Kept(tick)), f); (Mem(t', tick), err)
    case Sql(r) => var (r', err) := Write(r, SqlCreate(r, row), f); (Sql(r'), err)
  }

  ghost function Find(s: TokenStore, hash: string, f: Fault): Result<TokenRow, Error> {
    match s
    case Mem(t, _) => Read(FindToken(t, hash), f)
    case Sql(r) => Read(SqlFind(r, hash), f)
  }

  ghost function Update(s: TokenStore, row: TokenRow, f: Fault): (TokenStore, Option<Error>) {
    match s
    case Mem(t, tick) => var (t', err) := Write(t, UpdateToken(t, row.RevocationKept(tick)), f); (Mem(t', tick), err)
    case Sql(r) => var (r', err) := Write(r, SqlUpdate(r, row), f); (Sql(r'), err)
  }

  ghost function RevokeAllFor(s: TokenStore, userId: Id, now: Time, f: Fault): (TokenStore, Option<Error>) {
    match s
    case Mem(t, tick) =>
      var (t', err) := Write(t, (RevokeAll(t, userId, Floor(tick, now)), None), f); (Mem(t', tick), err)
    case Sql(r) => var (r', err) := Write(r, (SqlRevokeAll(r, userId, now), None), f); (Sql(r'), err)
  }

  ghost predicate UnusedTokenId(s: TokenStore, id: Id) {
    match s
    case Mem(t, _) => IdUnused(t, id)
    case Sql(r) => id !in r
  }

  // ---------------------------------------------------------------- Calls in flight

  /** The outside call that comes next, with the values it will use. */
  datatype Pc =
    | RegisterCreate(user: UserRow)
    | LoginFind(email: string, password: string)
    | RefreshFind(hash: string)
    | RefreshRevokeAll(token: TokenRow)
    | RefreshFindUser(token: TokenRow)
    | RefreshUpdate(token: TokenRow, user: UserRow)
    | LogoutFind(hash: string)
    | LogoutUpdate(token: TokenRow)
    | SuspendFind(userId: Id)
    | SuspendUpdate(user: UserRow)
    | SessionCreate(user: UserRow)
    | SessionIssue(user: UserRow, row: TokenRow, secret: string)
    | Done(reply: Reply)

  /** exchanged records that a Refresh has got as far as startSession. */
  datatype InFlight = InFlight(call: Call, now: Time, pc: Pc, exchanged: bool)

  datatype Sys = Sys(users: UserTable, tokens: TokenStore, calls: map<nat, InFlight>)

  function Start(cfg: Config, call: Call, now: Time, mint: Mint): InFlight {
    var pc :=
      match call
      case Register(email, password) =>
        var user := NewUser(cfg, email, password, now, mint);
        if user.Err? then Done(Failed(user.error)) else RegisterCreate(user.value)
      case Login(email, password) =>
        var normalized := cfg.normalizeEmail(email);
        if normalized.None? then Done(Failed(InvalidCredentials)) else LoginFind(normalized.value, password)
      case Refresh(secret) => RefreshFind(cfg.hashToken(secret))
      case Logout(secret) => LogoutFind(cfg.hashToken(secret))
      case Suspend(userId) => SuspendFind(userId);
    InFlight(call, now, pc, false)
  }

  function Fail(c: InFlight, e: Error): InFlight {
    c.(pc := Done(Failed(e)))
  }

  function SessionReply(call: Call, user: UserRow, pair: TokenPair): Reply {
    if call.Refresh? then Refreshed(pair) else Authenticated(user, pair)
  }

  // ---------------------------------------------------------------- One step

  /** The step that c takes next. A step that would use an id already taken does not happen. */
  ghost function Next(cfg: Config, users: UserTable, tokens: TokenStore, c: InFlight, f: Fault, mint: Mint)
    : (UserTable, TokenStore, InFlight)
  {
    match c.pc
    case RegisterCreate(user) =>
      if user.id in users then (users, tokens, c)
      else
        var (users', err) := Write(users, CreateUser(users, user), f);
        (users', tokens, if err.Some? then Fail(c, err.value) else c.(pc := SessionCreate(user)))
    case LoginFind(email, password) =>
      var user := Read(FindUserByEmail(users, email), f);
      if user.Err? then (users, tokens, Fail(c, if user.error == UserNotFound then InvalidCredentials else user.error))
      else
        var refused := user.value.Authenticate(password, cfg.hasher);
        (users, tokens, if refused.Some? then Fail(c, refused.value) else c.(pc := SessionCreate(user.value)))
    case RefreshFind(hash) =>
      var token := Find(tokens, hash, f);
      if token.Err? then (users, tokens, Fail(c, token.error))
      else
        var invalid := token.value.Validate(c.now);
        if invalid == Some(TokenRevoked) then (users, tokens, c.(pc := RefreshRevokeAll(token.value)))
        else if invalid.Some? then (users, tokens, Fail(c, invalid.value))
        else (users, tokens, c.(pc := RefreshFindUser(token.value)))
    case RefreshRevokeAll(token) =>
      var (tokens', err) := RevokeAllFor(tokens, token.userId, c.now, f);
      (users, tokens', Fail(c, if err.Some? then err.value else TokenRevoked))
    case RefreshFindUser(token) =>
      var user := Read(FindUserById(users, token.userId), f);
      if user.Err? then (users, tokens, Fail(c, user.error))
      else if user.value.status == Suspended then (users, tokens, Fail(c, UserIsSuspended))
      else (users, tokens, c.(pc := RefreshUpdate(token.Revoke(c.now), user.value)))
    case RefreshUpdate(token, user) =>
      var (tokens', err) := Update(tokens, token, f);
      (users, tokens', if err.Some? then Fail(c, err.value) else c.(pc := SessionCreate(user), exchanged := true))
    case LogoutFind(hash) =>
      var token := Find(tokens, hash, f);
      if token.Err? then
        (users, tokens, if token.error == TokenNotFound then c.(pc := Done(LoggedOut)) else Fail(c, token.error))
      else if token.value.revokedAt.Some? then (users, tokens, c.(pc := Done(LoggedOut)))
      else (users, tokens, c.(pc := LogoutUpdate(token.value.Revoke(c.now))))
    case LogoutUpdate(token) =>
      var (tokens', err) := Update(tokens, token, f);
      (users, tokens', if err.Some? then Fail(c, err.value) else c.(pc := Done(LoggedOut)))
    case SuspendFind(userId) =>
      var user := Read(FindUserById(users, userId), f);
      (users, tokens, if user.Err? then Fail(c, user.error) else c.(pc := SuspendUpdate(user.value.Suspend(c.now))))
    case SuspendUpdate(user) =>
      var (users', err) := Write(users, UpdateUser(users, user), f);
      (users', tokens, if err.Some? then Fail(c, err.value) else c.(pc := Done(SuspensionStored)))
    case SessionCreate(user) =>
      var row := NewRefreshToken(cfg, user.id, c.now, mint);
      if row.Err? then (users, tokens, Fail(c, row.error))
      else if !UnusedTokenId(tokens, row.value.id) then (users, tokens, c)
      else
        var (tokens', err) := Create(tokens, row.value, f);
        (users, tokens',
         if err.Some? then Fail(c, err.value) else c.(pc := SessionIssue(user, row.value, mint.secret.value)))
    case SessionIssue(user, row, secret) =>
      if !f.NoFault? then (users, tokens, Fail(c, Infrastructure))
      else
        var (access, accessExpiresAt) := cfg.issue(user, c.now);
        var pair := TokenPair(access, accessExpiresAt, secret, row.expiresAt);
        (users, tokens, c.(pc := Done(SessionReply(c.call, user, pair))))
    case Done(_) => (users, tokens, c)
  }

  datatype Action =
    | Begin(cid: nat, call: Call, now: Time, mint: Mint)
    | Advance(cid: nat, fault: Fault, mint: Mint)

  ghost function Step(cfg: Config, s: Sys, a: Action): Sys {
    match a
    case Begin(cid, call, now, mint) =>
      if cid in s.calls then s else s.(calls := s.calls[cid := Start(cfg, call, now, mint)])
    case Advance(cid, f, mint) =>
      if cid !in s.calls then s
      else
        var (users, tokens, c) := Next(cfg, s.users, s.tokens, s.calls[cid], f, mint);
        Sys(users, tokens, s.calls[cid := c])
  }

  ghost function Run(cfg: Config, s: Sys, acts: seq<Action>): Sys {
    if acts == [] then s else Step(cfg, Run(cfg, s, acts[..|acts| - 1]), acts[|acts| - 1])
  }
}
