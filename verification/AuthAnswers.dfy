/** What every use case answers and stores, column by column, under every fault of every outside call. The
    statements are about the two tables, the inputs and the collaborators only. */
module AuthAnswers {
  import opened Wrappers
  import opened Domain
  import opened Tables
  import opened Auth
  import AuthRuns

  // ---------------------------------------------------------------- Tables

  predicate SameColumns(a: TokenRow, b: TokenRow) {
    a.id == b.id && a.userId == b.userId && a.hash == b.hash && a.createdAt == b.createdAt && a.expiresAt == b.expiresAt
  }

  /** t' has the rows of t, those of the user all revoked: the unrevoked ones at now. */
  predicate UserRevoked(t: TokenTable, t': TokenTable, userId: Id, now: Time) {
    && t'.Keys == t.Keys
    && forall g :: g in t ==>
         && SameColumns(t'[g], t[g])
         && t'[g].revokedAt == if t[g].userId == userId && t[g].revokedAt.None? then Some(now) else t[g].revokedAt
  }

  /** t' has the rows of t, the one under h revoked at now. */
  predicate OneRevoked(t: TokenTable, t': TokenTable, h: string, now: Time) {
    && t'.Keys == t.Keys && h in t
    && (forall g :: g in t && g != h ==> t'[g] == t[g])
    && SameColumns(t'[h], t[h]) && t'[h].revokedAt == Some(now)
  }

  /** t' has the rows of t and an unrevoked one for the user, under the hash of the secret. */
  predicate RowInserted(cfg: Config, t: TokenTable, t': TokenTable, userId: Id, now: Time,
                        tokenId: Id, secret: string)
  {
    var h := cfg.hashToken(secret);
    && h !in t && t'.Keys == t.Keys + {h} && (forall g :: g in t ==> t'[g] == t[g])
    && t'[h].id == tokenId && t'[h].userId == userId && t'[h].hash == h
    && t'[h].createdAt == now && t'[h].expiresAt == now + cfg.ttl && t'[h].revokedAt == None
  }

  // ---------------------------------------------------------------- Starting a session

  /** The end of every use case that opens a session for user: tables, and the pair or the error. */
  predicate SessionAnswer(cfg: Config, t: TokenTable, t': TokenTable, user: UserRow, now: Time, mint: Mint, f: Faults,
                          answer: Result<TokenPair, Error>)
  {
    && (cfg.ttl <= 0 ==> t' == t && answer == Err(BadTtl))
    && (cfg.ttl > 0 && mint.secret.None? ==> t' == t && answer == Err(Error.NoRandomness))
    && (cfg.ttl > 0 && mint.secret.Some? ==>
          var taken := cfg.hashToken(mint.secret.value) in t;
          && (f.create.Lost? || taken ==> t' == t)
          && (!f.create.Lost? && !taken ==> RowInserted(cfg, t, t', user.id, now, mint.tokenId, mint.secret.value))
          && (!f.create.NoFault? ==> answer == Err(Infrastructure))
          && (f.create.NoFault? && taken ==> answer == Err(Duplicate))
          && (f.create.NoFault? && !taken && !f.issue.NoFault? ==> answer == Err(Infrastructure))
          && (f.create.NoFault? && !taken && f.issue.NoFault? ==>
                && answer.Ok? && answer.value.refreshToken == mint.secret.value
                && answer.value.refreshExpiresAt == now + cfg.ttl
                && (answer.value.accessToken, answer.value.accessExpiresAt) == cfg.issue(user, now)))
  }

  lemma SessionAnswers(cfg: Config, t: TokenTable, user: UserRow, now: Time, mint: Mint, f: Faults)
    ensures var (t', answer) := StartSession(cfg, t, user, now, mint, f);
            SessionAnswer(cfg, t, t', user, now, mint, f, answer)
  {
  }

  /** The reply that goes with the pair or the error. */
  predicate Opens(cfg: Config, t: TokenTable, t': TokenTable, user: UserRow, e: Event, reply: Reply) {
    match reply
    case Authenticated(u, pair) =>
      !e.call.Refresh? && u == user && SessionAnswer(cfg, t, t', user, e.now, e.mint, e.faults, Ok(pair))
    case Refreshed(pair) => e.call.Refresh? && SessionAnswer(cfg, t, t', user, e.now, e.mint, e.faults, Ok(pair))
    case Failed(error) => SessionAnswer(cfg, t, t', user, e.now, e.mint, e.faults, Err(error))
    case _ => false
  }

  // ---------------------------------------------------------------- Refresh

  predicate Usable(t: TokenTable, h: string, now: Time) {
    h in t && t[h].revokedAt.None? && now < t[h].expiresAt
  }

  /** A failed read of the token, a token that is unknown, and one that has expired. */
  lemma RefreshRefuses(cfg: Config, s: Store, e: Event)
    requires e.call.Refresh?
    ensures var h := cfg.hashToken(e.call.secret);
            && (!e.faults.find.NoFault? ==> Do(cfg, s, e) == (s, Failed(Infrastructure)))
            && (e.faults.find.NoFault? && h !in s.tokens ==> Do(cfg, s, e) == (s, Failed(TokenNotFound)))
            && (e.faults.find.NoFault? && h in s.tokens && s.tokens[h].revokedAt.None? && s.tokens[h].expiresAt <= e.now
                ==> Do(cfg, s, e) == (s, Failed(TokenExpired)))
  {
  }

  /** Reuse: a revoked token revokes every session of its owner, unless the write never happens. */
  lemma RefreshDetectsReuse(cfg: Config, s: Store, e: Event)
    requires e.call.Refresh? && e.faults.find.NoFault?
    requires var h := cfg.hashToken(e.call.secret); h in s.tokens && s.tokens[h].revokedAt.Some?
    ensures var (s', reply) := Do(cfg, s, e);
            && s'.users == s.users
            && (e.faults.write.Lost? ==> s'.tokens == s.tokens)
            && (!e.faults.write.Lost? ==>
                  UserRevoked(s.tokens, s'.tokens, s.tokens[cfg.hashToken(e.call.secret)].userId, e.now))
            && reply == Failed(if e.faults.write.NoFault? then TokenRevoked else Infrastructure)
  {
  }

  /** A usable token: the owner must be found and active, then the token is revoked, then the session is
      opened; a failure on the way leaves what was written before it. */
  lemma RefreshRotates(cfg: Config, s: Store, e: Event)
    requires e.call.Refresh? && e.faults.find.NoFault? && AuthRuns.TokensKeyed(s.tokens)
    requires Usable(s.tokens, cfg.hashToken(e.call.secret), e.now)
    ensures var h := cfg.hashToken(e.call.secret);
            var (s', reply) := Do(cfg, s, e);
            var owner := s.tokens[h].userId;
            && s'.users == s.users
            && (!e.faults.user.NoFault? ==> s' == s && reply == Failed(Infrastructure))
            && (e.faults.user.NoFault? && owner !in s.users ==> s' == s && reply == Failed(UserNotFound))
            && (e.faults.user.NoFault? && owner in s.users && s.users[owner].status == Suspended ==>
                  s' == s && reply == Failed(UserIsSuspended))
            && (e.faults.user.NoFault? && owner in s.users && s.users[owner].status == Active ==>
                  match e.faults.write
                  case Lost => s' == s && reply == Failed(Infrastructure)
                  case Torn => OneRevoked(s.tokens, s'.tokens, h, e.now) && reply == Failed(Infrastructure)
                  case NoFault =>
                    exists mid :: OneRevoked(s.tokens, mid, h, e.now) &&
                                  Opens(cfg, mid, s'.tokens, s.users[owner], e, reply))
  {
    var h := cfg.hashToken(e.call.secret);
    var token := s.tokens[h];
    var user := Read(FindUserById(s.users, token.userId), e.faults.user);
    if user.Ok? && user.value.status == Active && e.faults.write.NoFault? {
      var mid := s.tokens[h := token.(revokedAt := Some(e.now))];
      assert OneRevoked(s.tokens, mid, h, e.now);
      assert UpdateToken(s.tokens, token.Revoke(e.now)) == (mid, None);
      SessionAnswers(cfg, mid, user.value, e.now, e.mint, e.faults);
      assert Opens(cfg, mid, Do(cfg, s, e).0.tokens, s.users[token.userId], e, Do(cfg, s, e).1);
    }
  }

  // ---------------------------------------------------------------- Login

  predicate Has(users: UserTable, id: Id, email: string) {
    id in users && users[id].email == email
  }

  /** The answer for a known account: what the hasher says about the password comes first. */
  predicate AccountAnswer(cfg: Config, s: Store, s': Store, user: UserRow, e: Event, reply: Reply)
    requires e.call.Login?
  {
    var verdict := cfg.hasher.verify(e.call.password, user.passwordHash);
    && (verdict.Err? ==> s' == s && reply == Failed(verdict.error))
    && (verdict == Ok(false) ==> s' == s && reply == Failed(InvalidCredentials))
    && (verdict == Ok(true) && user.status == Suspended ==> s' == s && reply == Failed(UserIsSuspended))
    && (verdict == Ok(true) && user.status == Active ==> Opens(cfg, s.tokens, s'.tokens, user, e, reply))
  }

  /** Without the password of the account, suspended or not, and for any text that is no known email, the
      answer is the same; only the password shows that the account is suspended. */
  lemma LoginAnswers(cfg: Config, s: Store, e: Event)
    requires e.call.Login? && UniqueEmails(s.users)
    ensures var email := cfg.normalizeEmail(e.call.email);
            var (s', reply) := Do(cfg, s, e);
            && s'.users == s.users
            && (email.None? ==> s' == s && reply == Failed(InvalidCredentials))
            && (email.Some? && !e.faults.user.NoFault? ==> s' == s && reply == Failed(Infrastructure))
            && (email.Some? && e.faults.user.NoFault? && (forall id :: !Has(s.users, id, email.value)) ==>
                  s' == s && reply == Failed(InvalidCredentials))
            && (forall id :: email.Some? && e.faults.user.NoFault? && Has(s.users, id, email.value) ==>
                  AccountAnswer(cfg, s, s', s.users[id], e, reply))
  {
    var email := cfg.normalizeEmail(e.call.email);
    if email.Some? && EmailTakenIn(s.users, email.value) {
      var id :| id in s.users && s.users[id].email == email.value;
      assert Has(s.users, id, email.value);
      FindsTheOwner(s.users, id);
      SessionAnswers(cfg, s.tokens, s.users[id], e.now, e.mint, e.faults);
    }
  }

  // ---------------------------------------------------------------- Register

  /** What is wrong with the input, in the order in which it is reported. */
  lemma RegisterRefuses(cfg: Config, s: Store, e: Event)
    requires e.call.Register?
    ensures var email, length := cfg.normalizeEmail(e.call.email), |e.call.password|;
            var hashed := cfg.hasher.hash(e.call.password, e.mint.salt);
            && (email.None? ==> Do(cfg, s, e) == (s, Failed(InvalidEmail)))
            && (email.Some? && length < 8 ==> Do(cfg, s, e) == (s, Failed(WeakPassword)))
            && (email.Some? && length > 128 ==> Do(cfg, s, e) == (s, Failed(PasswordTooLong)))
            && (email.Some? && 8 <= length <= 128 && hashed.Err? ==> Do(cfg, s, e) == (s, Failed(hashed.error)))
  {
  }

  /** Valid input: a taken email changes nothing; a free one is stored with an active account, then the
      session is opened. */
  lemma RegisterStores(cfg: Config, s: Store, e: Event)
    requires e.call.Register? && cfg.normalizeEmail(e.call.email).Some? && 8 <= |e.call.password| <= 128
    requires cfg.hasher.hash(e.call.password, e.mint.salt).Ok? && e.mint.userId !in s.users
    ensures var (s', reply) := Do(cfg, s, e);
            var email, id := cfg.normalizeEmail(e.call.email).value, e.mint.userId;
            var taken := exists other :: other in s.users && s.users[other].email == email;
            var user := UserRow(id, email, cfg.hasher.hash(e.call.password, e.mint.salt).value, Active, e.now, e.now);
            && (e.faults.user.Lost? || taken ==> s' == s)
            && (!e.faults.user.Lost? && !taken ==>
                  s'.users.Keys == s.users.Keys + {id} && s'.users[id] == user &&
                  forall other :: other in s.users ==> s'.users[other] == s.users[other])
            && (!e.faults.user.NoFault? ==> s'.tokens == s.tokens && reply == Failed(Infrastructure))
            && (e.faults.user.NoFault? && taken ==> reply == Failed(EmailTaken))
            && (e.faults.user.NoFault? && !taken ==> Opens(cfg, s.tokens, s'.tokens, user, e, reply))
  {
    var user := NewUser(cfg, e.call.email, e.call.password, e.now, e.mint).value;
    SessionAnswers(cfg, s.tokens, user, e.now, e.mint, e.faults);
  }

  // ---------------------------------------------------------------- Logout and suspension

  /** Unknown and revoked tokens are not errors; failed calls are. */
  lemma LogoutAnswers(cfg: Config, s: Store, e: Event)
    requires e.call.Logout? && AuthRuns.TokensKeyed(s.tokens)
    ensures var h := cfg.hashToken(e.call.secret);
            var (s', reply) := Do(cfg, s, e);
            && s'.users == s.users
            && (!e.faults.find.NoFault? ==> s' == s && reply == Failed(Infrastructure))
            && (e.faults.find.NoFault? && (h !in s.tokens || s.tokens[h].revokedAt.Some?) ==>
                  s' == s && reply == LoggedOut)
            && (e.faults.find.NoFault? && h in s.tokens && s.tokens[h].revokedAt.None? ==>
                  && (e.faults.write.Lost? ==> s' == s)
                  && (!e.faults.write.Lost? ==> OneRevoked(s.tokens, s'.tokens, h, e.now))
                  && reply == if e.faults.write.NoFault? then LoggedOut else Failed(Infrastructure))
  {
  }

  /** The stored user keeps every column but status and update time. */
  lemma SuspendAnswers(cfg: Config, s: Store, e: Event)
    requires e.call.Suspend? && forall id :: id in s.users ==> s.users[id].id == id
    ensures var id := e.call.userId;
            var (s', reply) := Do(cfg, s, e);
            && s'.tokens == s.tokens && s'.users.Keys == s.users.Keys
            && (!e.faults.user.NoFault? ==> s' == s && reply == Failed(Infrastructure))
            && (e.faults.user.NoFault? && id !in s.users ==> s' == s && reply == Failed(UserNotFound))
            && (e.faults.user.NoFault? && id in s.users ==>
                  && (e.faults.write.Lost? ==> s' == s)
                  && (!e.faults.write.Lost? ==>
                        var u := s.users[id];
                        && s'.users[id] == UserRow(id, u.email, u.passwordHash, Suspended, u.createdAt, e.now)
                        && forall other :: other in s.users && other != id ==> s'.users[other] == s.users[other])
                  && reply == if e.faults.write.NoFault? then SuspensionStored else Failed(Infrastructure))
  {
  }
}
