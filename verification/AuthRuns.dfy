/** What every run of uninterrupted use cases keeps, whatever fails along the way. */
module AuthRuns {
  import opened Wrappers
  import opened Domain
  import opened Tables
  import opened Auth

  // ---------------------------------------------------------------- Runs

  ghost function Exec(cfg: Config, s: Store, es: seq<Event>): Store {
    if es == [] then s else Do(cfg, Exec(cfg, s, es[..|es| - 1]), es[|es| - 1]).0
  }

  /** The state event i finds, and the reply it gets. */
  ghost function Before(cfg: Config, s: Store, es: seq<Event>, i: nat): Store
    requires i <= |es|
  {
    Exec(cfg, s, es[..i])
  }

  ghost function ReplyTo(cfg: Config, s: Store, es: seq<Event>, i: nat): Reply
    requires i < |es|
  {
    Do(cfg, Before(cfg, s, es, i), es[i]).1
  }

  /** New user ids are fresh. Nothing is asked of token ids and secrets. */
  ghost predicate FreshId(s: Store, e: Event) {
    e.call.Register? ==> e.mint.userId !in s.users
  }

  ghost predicate Legal(cfg: Config, s: Store, es: seq<Event>) {
    forall i :: 0 <= i < |es| ==> FreshId(Before(cfg, s, es, i), es[i])
  }

  lemma PrefixIsLegal(cfg: Config, s: Store, es: seq<Event>, n: nat)
    requires Legal(cfg, s, es) && n <= |es|
    ensures Legal(cfg, s, es[..n])
  {
    forall i | 0 <= i < n ensures FreshId(Before(cfg, s, es[..n], i), es[..n][i]) {
      assert es[..n][..i] == es[..i];
      assert FreshId(Before(cfg, s, es, i), es[i]);
    }
  }

  // ---------------------------------------------------------------- What one call does to the tokens

  datatype Effect =
    | Nothing
    | Opened(row: TokenRow)
    | Rotated(hash: string, row: TokenRow)
    | Closed(hash: string)
    | RevokedUser(userId: Id)

  function Apply(t: TokenTable, x: Effect, now: Time): TokenTable {
    match x
    case Nothing => t
    case Opened(row) => t[row.hash := row]
    case Rotated(h, row) => if h in t then t[h := t[h].Revoke(now)][row.hash := row] else t
    case Closed(h) => if h in t then t[h := t[h].Revoke(now)] else t
    case RevokedUser(u) => RevokeAll(t, u, now)
  }

  function PairOf(r: Reply): Option<TokenPair> {
    match r
    case Authenticated(_, pair) => Some(pair)
    case Refreshed(pair) => Some(pair)
    case _ => None
  }

  /** The row that startSession would store for userId. */
  predicate IsMinted(cfg: Config, row: TokenRow, userId: Id, e: Event) {
    e.mint.secret.Some? &&
    row == TokenRow(e.mint.tokenId, userId, cfg.hashToken(e.mint.secret.value), e.now, e.now + cfg.ttl, None)
  }

  /** The account has this email in its normal form, is active, and the password matches its hash. */
  predicate MayLogIn(cfg: Config, user: UserRow, email: string, password: string) {
    && cfg.normalizeEmail(email) == Some(user.email) && user.status == Active
    && cfg.hasher.verify(password, user.passwordHash) == Ok(true)
  }

  ghost predicate Possible(cfg: Config, s: Store, e: Event, x: Effect) {
    match x
    case Nothing => true
    case Opened(row) =>
      && row.hash !in s.tokens && IsMinted(cfg, row, row.userId, e)
      && (match e.call
          case Register(_, _) => row.userId == e.mint.userId
          case Login(email, password) =>
            row.userId in s.users && MayLogIn(cfg, s.users[row.userId], email, password)
          case _ => false)
    case Rotated(h, row) =>
      && e.call.Refresh? && h == cfg.hashToken(e.call.secret)
      && h in s.tokens && s.tokens[h].Validate(e.now).None?
      && row.hash !in s.tokens && IsMinted(cfg, row, s.tokens[h].userId, e)
      && row.userId in s.users && s.users[row.userId].status == Active
    case Closed(h) =>
      && (e.call.Refresh? || e.call.Logout?) && h == cfg.hashToken(e.call.secret)
      && h in s.tokens && s.tokens[h].revokedAt.None?
      && (e.call.Refresh? ==> s.tokens[h].Validate(e.now).None?)
    case RevokedUser(u) =>
      && e.call.Refresh? && cfg.hashToken(e.call.secret) in s.tokens
      && s.tokens[cfg.hashToken(e.call.secret)].revokedAt.Some?
      && u == s.tokens[cfg.hashToken(e.call.secret)].userId
  }

  predicate Inserts(x: Effect) {
    x.Opened? || x.Rotated?
  }

  predicate IssuedTo(cfg: Config, pair: TokenPair, user: UserRow, e: Event) {
    (pair.accessToken, pair.accessExpiresAt) == cfg.issue(user, e.now)
  }

  /** A secret reaches the client exactly when its row was inserted and neither Create nor the issuer
      reported an error; the pair says what the row says, and its access token was issued to the owner. */
  ghost predicate PairMatches(cfg: Config, s: Store, e: Event, x: Effect, reply: Reply) {
    && (PairOf(reply).Some? <==> Inserts(x) && e.faults.create.NoFault? && e.faults.issue.NoFault?)
    && (PairOf(reply).Some? ==>
          && e.mint.secret == Some(PairOf(reply).value.refreshToken)
          && PairOf(reply).value.refreshExpiresAt == x.row.expiresAt
          && (reply.Authenticated? ==>
                x.Opened? && reply.user.id == x.row.userId && IssuedTo(cfg, PairOf(reply).value, reply.user, e))
          && (reply.Refreshed? ==>
                x.Rotated? && x.row.userId in s.users && IssuedTo(cfg, PairOf(reply).value, s.users[x.row.userId], e)))
  }

  ghost predicate TokensKeyed(t: TokenTable) {
    forall h :: h in t ==> t[h].hash == h
  }

  lemma SessionEffect(cfg: Config, t: TokenTable, user: UserRow, now: Time, mint: Mint, f: Faults)
    requires cfg.ttl > 0
    ensures var (t', pair) := StartSession(cfg, t, user, now, mint, f);
            && (t' == t ||
                (mint.secret.Some? && cfg.hashToken(mint.secret.value) !in t &&
                 t' == t[cfg.hashToken(mint.secret.value) :=
                         TokenRow(mint.tokenId, user.id, cfg.hashToken(mint.secret.value), now, now + cfg.ttl, None)]))
            && (pair.Ok? <==> t' != t && f.create.NoFault? && f.issue.NoFault?)
            && (pair.Ok? ==>
                  && mint.secret == Some(pair.value.refreshToken) && pair.value.refreshExpiresAt == now + cfg.ttl
                  && (pair.value.accessToken, pair.value.accessExpiresAt) == cfg.issue(user, now))
  {
  }

  /** Every call has one of the five effects, under the conditions that go with it. */
  lemma DoHasEffect(cfg: Config, s: Store, e: Event) returns (x: Effect)
    requires cfg.ttl > 0 && TokensKeyed(s.tokens)
    requires forall id :: id in s.users ==> s.users[id].id == id
    ensures Do(cfg, s, e).0.tokens == Apply(s.tokens, x, e.now)
    ensures Possible(cfg, s, e, x) && PairMatches(cfg, s, e, x, Do(cfg, s, e).1)
    ensures x.Opened? && e.call.Register? ==> x.row.userId in Do(cfg, s, e).0.users
  {
    var s' := Do(cfg, s, e).0;
    match e.call
    case Register(email, password) =>
      x := RegisterEffect(cfg, s, e, email, password);
    case Login(email, password) =>
      x := LoginEffect(cfg, s, e, email, password);
    case Refresh(secret) =>
      x := RefreshEffect(cfg, s, e, secret);
    case Logout(secret) =>
      var h := cfg.hashToken(secret);
      x := if s'.tokens == s.tokens then Nothing else Closed(h);
    case Suspend(_) =>
      x := Nothing;
  }

  lemma RegisterEffect(cfg: Config, s: Store, e: Event, email: string, password: string) returns (x: Effect)
    requires cfg.ttl > 0 && e.call == Register(email, password)
    ensures Do(cfg, s, e).0.tokens == Apply(s.tokens, x, e.now)
    ensures Possible(cfg, s, e, x) && PairMatches(cfg, s, e, x, Do(cfg, s, e).1)
    ensures x.Opened? ==> x.row.userId in Do(cfg, s, e).0.users
  {
    x := Nothing;
    var user := NewUser(cfg, email, password, e.now, e.mint);
    if user.Ok? && Write(s.users, CreateUser(s.users, user.value), e.faults.user).1.None? {
      x := OpenedOrNothing(cfg, s, e, user.value);
    }
  }

  lemma LoginEffect(cfg: Config, s: Store, e: Event, email: string, password: string) returns (x: Effect)
    requires cfg.ttl > 0 && e.call == Login(email, password)
    requires forall id :: id in s.users ==> s.users[id].id == id
    ensures Do(cfg, s, e).0.tokens == Apply(s.tokens, x, e.now)
    ensures Possible(cfg, s, e, x) && PairMatches(cfg, s, e, x, Do(cfg, s, e).1)
  {
    x := Nothing;
    var normalized := cfg.normalizeEmail(email);
    if normalized.Some? {
      var user := Read(FindUserByEmail(s.users, normalized.value), e.faults.user);
      if user.Ok? && user.value.Authenticate(password, cfg.hasher).None? {
        assert user.value.id in s.users && s.users[user.value.id] == user.value;
        x := OpenedOrNothing(cfg, s, e, user.value);
      }
    }
  }

  lemma OpenedOrNothing(cfg: Config, s: Store, e: Event, user: UserRow) returns (x: Effect)
    requires cfg.ttl > 0
    requires (e.call.Register? && user.id == e.mint.userId) ||
             (e.call.Login? && user.id in s.users && MayLogIn(cfg, s.users[user.id], e.call.email, e.call.password))
    ensures Possible(cfg, s, e, x)
    ensures var (t, pair) := StartSession(cfg, s.tokens, user, e.now, e.mint, e.faults);
            t == Apply(s.tokens, x, e.now) && PairMatches(cfg, s, e, x, AuthResult(user, pair))
  {
    SessionEffect(cfg, s.tokens, user, e.now, e.mint, e.faults);
    var t := StartSession(cfg, s.tokens, user, e.now, e.mint, e.faults).0;
    if t == s.tokens {
      x := Nothing;
    } else {
      x := Opened(t[cfg.hashToken(e.mint.secret.value)]);
    }
  }

  lemma RefreshEffect(cfg: Config, s: Store, e: Event, secret: string) returns (x: Effect)
    requires cfg.ttl > 0 && e.call == Refresh(secret) && TokensKeyed(s.tokens)
    requires forall id :: id in s.users ==> s.users[id].id == id
    ensures Do(cfg, s, e).0.tokens == Apply(s.tokens, x, e.now)
    ensures Possible(cfg, s, e, x) && PairMatches(cfg, s, e, x, Do(cfg, s, e).1)
  {
    x := Nothing;
    var h := cfg.hashToken(secret);
    var found := Read(FindToken(s.tokens, h), e.faults.find);
    if found.Ok? {
      var token := found.value;
      if token.revokedAt.Some? {
        x := if e.faults.write.Lost? then Nothing else RevokedUser(token.userId);
      } else if token.Validate(e.now).None? {
        var user := Read(FindUserById(s.users, token.userId), e.faults.user);
        if user.Ok? && user.value.status == Active && !e.faults.write.Lost? {
          var t := s.tokens[h := token.Revoke(e.now)];
          assert UpdateToken(s.tokens, token.Revoke(e.now)) == (t, None);
          x := Closed(h);
          if e.faults.write.NoFault? {
            SessionEffect(cfg, t, user.value, e.now, e.mint, e.faults);
            var t' := StartSession(cfg, t, user.value, e.now, e.mint, e.faults).0;
            if t' != t {
              x := Rotated(h, t'[cfg.hashToken(e.mint.secret.value)]);
            }
          }
        }
      }
    }
  }
}
