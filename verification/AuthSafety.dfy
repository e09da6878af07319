/** Safety of whole runs: what is stored stays true, each token is exchanged once, sessions are counted,
    suspension sticks. */
module AuthSafety {
  import opened Wrappers
  import opened Sets
  import opened Domain
  import opened Tables
  import opened Auth
  import opened AuthRuns

  // ---------------------------------------------------------------- The invariant

  /** The last clause is the foreign key of the SQL schema: it can never be violated. */
  ghost predicate Inv(s: Store) {
    && (forall id :: id in s.users ==> s.users[id].id == id)
    && UniqueEmails(s.users)
    && TokensKeyed(s.tokens)
    && (forall h :: h in s.tokens ==> s.tokens[h].createdAt < s.tokens[h].expiresAt)
    && (forall h :: h in s.tokens ==> s.tokens[h].userId in s.users)
  }

  const EMPTY := Store(map[], map[])

  /** Rows are never removed; their fixed columns never change; a revocation time, once written, is
      kept; a suspended user stays suspended. */
  ghost predicate Evolves(s: Store, s': Store) {
    && (forall h :: h in s.tokens ==> h in s'.tokens && TokenEvolves(s.tokens[h], s'.tokens[h]))
    && (forall id :: id in s.users ==> id in s'.users && UserEvolves(s.users[id], s'.users[id]))
  }

  predicate TokenEvolves(t: TokenRow, t': TokenRow) {
    t.SameToken(t') && (t.revokedAt.Some? ==> t'.revokedAt == t.revokedAt)
  }

  predicate UserEvolves(u: UserRow, u': UserRow) {
    && u.(status := u'.status, updatedAt := u'.updatedAt) == u'
    && (u.status == Suspended ==> u'.status == Suspended)
  }

  /** What Register stores: normal form of the email, password within limits and only as its hash. */
  predicate IsRegistration(cfg: Config, e: Event, user: UserRow) {
    && e.call.Register? && ValidatePassword(e.call.password).None?
    && cfg.normalizeEmail(e.call.email) == Some(user.email)
    && cfg.hasher.hash(e.call.password, e.mint.salt) == Ok(user.passwordHash)
    && user == UserRow(e.mint.userId, user.email, user.passwordHash, Active, e.now, e.now)
  }

  ghost predicate UsersStep(cfg: Config, s: Store, e: Event, users': UserTable) {
    || users' == s.users
    || (&& e.mint.userId in users' && IsRegistration(cfg, e, users'[e.mint.userId])
        && users' == s.users[e.mint.userId := users'[e.mint.userId]]
        && !EmailTakenIn(s.users, users'[e.mint.userId].email))
    || (&& e.call.Suspend? && e.call.userId in s.users
        && users' == s.users[e.call.userId := s.users[e.call.userId].Suspend(e.now)])
  }

  lemma DoStepsUsers(cfg: Config, s: Store, e: Event)
    requires Inv(s)
    ensures UsersStep(cfg, s, e, Do(cfg, s, e).0.users)
  {
    match e.call
    case Register(email, password) => RegisterStepsUsers(cfg, s, e, email, password);
    case _ =>
  }

  lemma RegisterStepsUsers(cfg: Config, s: Store, e: Event, email: string, password: string)
    requires e.call == Register(email, password)
    ensures UsersStep(cfg, s, e, Do(cfg, s, e).0.users)
    ensures Do(cfg, s, e).1.Authenticated? ==> Do(cfg, s, e).0.users == s.users[e.mint.userId := Do(cfg, s, e).1.user]
  {
  }

  lemma UsersKeepInv(cfg: Config, s: Store, e: Event, users': UserTable)
    requires Inv(s) && FreshId(s, e) && UsersStep(cfg, s, e, users')
    ensures forall id :: id in users' ==> users'[id].id == id
    ensures UniqueEmails(users')
    ensures forall id :: id in s.users ==> id in users' && UserEvolves(s.users[id], users'[id])
  {
    forall i, j | i in users' && j in users' && users'[i].email == users'[j].email ensures i == j {
      assert i in s.users && j in s.users && s.users[i].email == s.users[j].email ==> i == j;
    }
  }

  lemma TokensKeepInv(cfg: Config, s: Store, e: Event, x: Effect)
    requires cfg.ttl > 0 && Inv(s) && Possible(cfg, s, e, x)
    ensures var t' := Apply(s.tokens, x, e.now);
            && TokensKeyed(t')
            && (forall h :: h in t' ==> t'[h].createdAt < t'[h].expiresAt)
            && (forall h :: h in t' ==> t'[h].userId in s.users || (x.Opened? && e.call.Register? && t'[h] == x.row))
            && (forall h :: h in s.tokens ==> h in t' && TokenEvolves(s.tokens[h], t'[h]))
  {
    hide UniqueEmails;
    match x
    case Nothing =>
    case Opened(_) =>
    case Rotated(_, _) =>
    case Closed(_) =>
    case RevokedUser(_) =>
  }

  lemma DoKeepsInv(cfg: Config, s: Store, e: Event)
    requires cfg.ttl > 0 && Inv(s) && FreshId(s, e)
    ensures Inv(Do(cfg, s, e).0)
    ensures Evolves(s, Do(cfg, s, e).0)
  {
    hide Do, PairMatches, Possible, Apply, UsersStep;
    DoStepsUsers(cfg, s, e);
    UsersKeepInv(cfg, s, e, Do(cfg, s, e).0.users);
    var x := DoHasEffect(cfg, s, e);
    TokensKeepInv(cfg, s, e, x);
  }

  lemma {:induction false} RunKeepsInv(cfg: Config, s: Store, es: seq<Event>)
    requires cfg.ttl > 0 && Inv(s) && Legal(cfg, s, es)
    ensures Inv(Exec(cfg, s, es))
    ensures Evolves(s, Exec(cfg, s, es))
  {
    if es != [] {
      var n := |es| - 1;
      PrefixIsLegal(cfg, s, es, n);
      RunKeepsInv(cfg, s, es[..n]);
      assert FreshId(Before(cfg, s, es, n), es[n]);
      DoKeepsInv(cfg, Exec(cfg, s, es[..n]), es[n]);
      EvolvesIsTransitive(s, Exec(cfg, s, es[..n]), Exec(cfg, s, es));
    }
  }

  lemma EvolvesIsTransitive(s: Store, t: Store, u: Store)
    requires Evolves(s, t) && Evolves(t, u)
    ensures Evolves(s, u)
  {
  }

  lemma {:induction false} ExecSplits(cfg: Config, s: Store, a: seq<Event>, b: seq<Event>)
    ensures Exec(cfg, s, a + b) == Exec(cfg, Exec(cfg, s, a), b)
  {
    if b == [] {
      assert a + b == a;
    } else {
      assert (a + b)[..|a + b| - 1] == a + b[..|b| - 1];
      ExecSplits(cfg, s, a, b[..|b| - 1]);
    }
  }

  lemma SuffixIsLegal(cfg: Config, s: Store, es: seq<Event>, n: nat)
    requires Legal(cfg, s, es) && n <= |es|
    ensures Legal(cfg, Before(cfg, s, es, n), es[n..])
  {
    var mid := Before(cfg, s, es, n);
    forall i | 0 <= i < |es| - n ensures FreshId(Before(cfg, mid, es[n..], i), es[n..][i]) {
      ExecSplits(cfg, s, es[..n], es[n..][..i]);
      assert es[..n] + es[n..][..i] == es[..n + i];
      assert FreshId(Before(cfg, s, es, n + i), es[n + i]);
    }
  }

  lemma SegmentIsRun(cfg: Config, s: Store, es: seq<Event>, i: nat, j: nat)
    requires Legal(cfg, s, es) && i <= j <= |es|
    ensures Legal(cfg, Before(cfg, s, es, i), es[i..j])
    ensures Exec(cfg, Before(cfg, s, es, i), es[i..j]) == Before(cfg, s, es, j)
  {
    PrefixIsLegal(cfg, s, es, j);
    SuffixIsLegal(cfg, s, es[..j], i);
    ExecSplits(cfg, s, es[..i], es[i..j]);
    assert es[..i] + es[i..j] == es[..j] && es[..j][..i] == es[..i] && es[..j][i..] == es[i..j];
  }

  /** From any point of a run, every later point is an evolution of it. */
  lemma LaterEvolves(cfg: Config, s: Store, es: seq<Event>, i: nat, j: nat)
    requires cfg.ttl > 0 && Inv(s) && Legal(cfg, s, es) && i <= j <= |es|
    ensures Inv(Before(cfg, s, es, i)) && Evolves(Before(cfg, s, es, i), Before(cfg, s, es, j))
  {
    PrefixIsLegal(cfg, s, es, i);
    RunKeepsInv(cfg, s, es[..i]);
    SegmentIsRun(cfg, s, es, i, j);
    RunKeepsInv(cfg, Before(cfg, s, es, i), es[i..j]);
  }

  // ---------------------------------------------------------------- Each token is exchanged at most once

  ghost predicate Exchanges(cfg: Config, s: Store, es: seq<Event>, i: nat, h: string)
    requires i < |es|
  {
    es[i].call.Refresh? && cfg.hashToken(es[i].call.secret) == h && ReplyTo(cfg, s, es, i).Refreshed?
  }

  /** Over a whole run at most one Refresh of a token succeeds: any later one is refused. */
  lemma ExchangedAtMostOnce(cfg: Config, s: Store, es: seq<Event>, h: string, i: nat, j: nat)
    requires cfg.ttl > 0 && Inv(s) && Legal(cfg, s, es) && i < |es| && j < |es|
    requires Exchanges(cfg, s, es, i, h) && Exchanges(cfg, s, es, j, h)
    ensures i == j
  {
    if i < j {
      NotExchangedAgain(cfg, s, es, h, i, j);
    } else if j < i {
      NotExchangedAgain(cfg, s, es, h, j, i);
    }
  }

  lemma RefreshNeedsLiveToken(cfg: Config, s: Store, e: Event)
    requires cfg.ttl > 0 && Inv(s) && e.call.Refresh? && Do(cfg, s, e).1.Refreshed?
    ensures var h := cfg.hashToken(e.call.secret);
            && h in s.tokens && s.tokens[h].revokedAt.None?
            && h in Do(cfg, s, e).0.tokens && Do(cfg, s, e).0.tokens[h].revokedAt.Some?
  {
    hide Do;
    var x := DoHasEffect(cfg, s, e);
  }

  lemma NotExchangedAgain(cfg: Config, s: Store, es: seq<Event>, h: string, i: nat, j: nat)
    requires cfg.ttl > 0 && Inv(s) && Legal(cfg, s, es) && i < j < |es|
    requires Exchanges(cfg, s, es, i, h)
    ensures !Exchanges(cfg, s, es, j, h)
  {
    LaterEvolves(cfg, s, es, i, i + 1);
    LaterEvolves(cfg, s, es, i + 1, j);
    LaterEvolves(cfg, s, es, j, j);
    hide Do;
    assert es[..i + 1][..i] == es[..i];
    RefreshNeedsLiveToken(cfg, Before(cfg, s, es, i), es[i]);
    if Exchanges(cfg, s, es, j, h) {
      RefreshNeedsLiveToken(cfg, Before(cfg, s, es, j), es[j]);
    }
  }

  /** When nothing fails Logout never reports an error, whatever it is given; a known token is revoked
      from then on, at its first revocation time, and no other row changes; so a second Logout finds
      nothing left to do. */
  lemma LogoutIsIdempotent(cfg: Config, s: Store, e: Event, again: Event)
    requires Inv(s) && e.call.Logout? && e.faults == NO_FAULTS
    requires again.call == e.call && again.faults == NO_FAULTS
    ensures var h := cfg.hashToken(e.call.secret);
            var (s', reply) := Do(cfg, s, e);
            && reply == LoggedOut && s'.users == s.users && s'.tokens.Keys == s.tokens.Keys
            && (h in s.tokens ==> s'.tokens[h] == s.tokens[h].Revoke(e.now) && s'.tokens[h].revokedAt.Some?)
            && (forall g :: g in s.tokens && g != h ==> s'.tokens[g] == s.tokens[g])
            && Do(cfg, s', again) == (s', LoggedOut)
  {
  }

  // ---------------------------------------------------------------- Returned secrets and stored rows

  /** Whom a call that returned a pair speaks for. */
  ghost function Beneficiary(cfg: Config, s: Store, es: seq<Event>, i: nat): Id
    requires i < |es|
  {
    var reply := ReplyTo(cfg, s, es, i);
    if reply.Authenticated? then reply.user.id
    else if es[i].call.Refresh? && cfg.hashToken(es[i].call.secret) in Before(cfg, s, es, i).tokens then
      Before(cfg, s, es, i).tokens[cfg.hashToken(es[i].call.secret)].userId
    else 0
  }

  /** A secret handed out by call i has its row in every later state, with the right owner and the
      expiry that was announced. */
  lemma ReturnedSecretIsStored(cfg: Config, s: Store, es: seq<Event>, i: nat, j: nat)
    requires cfg.ttl > 0 && Inv(s) && Legal(cfg, s, es) && i < j <= |es|
    requires PairOf(ReplyTo(cfg, s, es, i)).Some?
    ensures var pair := PairOf(ReplyTo(cfg, s, es, i)).value;
            var t := Before(cfg, s, es, j).tokens;
            var h := cfg.hashToken(pair.refreshToken);
            && h in t && h !in Before(cfg, s, es, i).tokens
            && t[h].userId == Beneficiary(cfg, s, es, i) && t[h].expiresAt == pair.refreshExpiresAt
  {
    hide Do;
    LaterEvolves(cfg, s, es, i, i + 1);
    LaterEvolves(cfg, s, es, i + 1, j);
    assert es[..i + 1][..i] == es[..i];
    var x := DoHasEffect(cfg, Before(cfg, s, es, i), es[i]);
  }

  /** Call i inserted the row for h. */
  ghost predicate InsertedBy(cfg: Config, s: Store, es: seq<Event>, i: nat, h: string)
    requires i < |es|
  {
    h !in Before(cfg, s, es, i).tokens && h in Before(cfg, s, es, i + 1).tokens
  }

  ghost predicate ReturnedBy(cfg: Config, s: Store, es: seq<Event>, i: nat, h: string)
    requires i < |es|
  {
    && PairOf(ReplyTo(cfg, s, es, i)).Some?
    && cfg.hashToken(PairOf(ReplyTo(cfg, s, es, i)).value.refreshToken) == h
  }

  lemma {:induction false} SomeCallInserted(cfg: Config, s: Store, es: seq<Event>, h: string) returns (i: nat)
    requires h in Exec(cfg, s, es).tokens && h !in s.tokens
    ensures i < |es| && InsertedBy(cfg, s, es, i, h)
  {
    var n := |es| - 1;
    if h in Exec(cfg, s, es[..n]).tokens {
      i := SomeCallInserted(cfg, s, es[..n], h);
      assert es[..n][..i] == es[..i] && es[..n][..i + 1] == es[..i + 1];
    } else {
      i := n;
      assert es[..n + 1] == es;
    }
  }

  /** Every row of a run from the empty store was inserted by exactly one call; that call returned the
      row's secret unless Create took effect and still reported an error, or the issuer failed; and no
      other call ever returned a secret of that hash. */
  lemma RowsWithoutSecret(cfg: Config, es: seq<Event>, h: string) returns (i: nat)
    requires cfg.ttl > 0 && Legal(cfg, EMPTY, es) && h in Exec(cfg, EMPTY, es).tokens
    ensures i < |es| && InsertedBy(cfg, EMPTY, es, i, h)
    ensures forall j :: 0 <= j < |es| && InsertedBy(cfg, EMPTY, es, j, h) ==> j == i
    ensures ReturnedBy(cfg, EMPTY, es, i, h) <==> es[i].faults.create.NoFault? && es[i].faults.issue.NoFault?
    ensures forall j :: 0 <= j < |es| && j != i ==> !ReturnedBy(cfg, EMPTY, es, j, h)
  {
    i := SomeCallInserted(cfg, EMPTY, es, h);
    InsertionReturns(cfg, EMPTY, es, i, h);
    forall j | 0 <= j < |es| ensures InsertedBy(cfg, EMPTY, es, j, h) ==> j == i {
      if InsertedBy(cfg, EMPTY, es, j, h) {
        InsertedOnce(cfg, EMPTY, es, i, j, h);
      }
    }
    forall j | 0 <= j < |es| && j != i ensures !ReturnedBy(cfg, EMPTY, es, j, h) {
      if ReturnedBy(cfg, EMPTY, es, j, h) {
        ReturnedSecretIsStored(cfg, EMPTY, es, j, j + 1);
        assert InsertedBy(cfg, EMPTY, es, j, h);
      }
    }
  }

  lemma InsertionReturns(cfg: Config, s: Store, es: seq<Event>, i: nat, h: string)
    requires cfg.ttl > 0 && Inv(s) && Legal(cfg, s, es) && i < |es| && InsertedBy(cfg, s, es, i, h)
    ensures ReturnedBy(cfg, s, es, i, h) <==> es[i].faults.create.NoFault? && es[i].faults.issue.NoFault?
  {
    hide Do;
    LaterEvolves(cfg, s, es, i, i);
    assert es[..i + 1][..i] == es[..i];
    var x := DoHasEffect(cfg, Before(cfg, s, es, i), es[i]);
  }

  lemma InsertedOnce(cfg: Config, s: Store, es: seq<Event>, i: nat, j: nat, h: string)
    requires cfg.ttl > 0 && Inv(s) && Legal(cfg, s, es) && i < |es| && j < |es|
    requires InsertedBy(cfg, s, es, i, h) && InsertedBy(cfg, s, es, j, h)
    ensures i == j
  {
    if i < j {
      LaterEvolves(cfg, s, es, i + 1, j);
    } else if j < i {
      LaterEvolves(cfg, s, es, j + 1, i);
    }
  }

  // ---------------------------------------------------------------- The life of a token

  /** 0 while it may be used, 1 once expired, 2 once revoked. */
  function Phase(t: TokenRow, now: Time): nat {
    match t.Validate(now)
    case None => 0
    case Some(e) => if e == TokenExpired then 1 else 2
  }

  ghost predicate Monotone(es: seq<Event>, start: Time) {
    && (forall i :: 0 <= i < |es| ==> start <= es[i].now)
    && (forall i, j :: 0 <= i <= j < |es| ==> es[i].now <= es[j].now)
  }

  ghost predicate TimesInOrder(t: TokenTable, now: Time) {
    forall h :: h in t ==>
      t[h].createdAt <= now && (t[h].revokedAt.Some? ==> t[h].createdAt <= t[h].revokedAt.value <= now)
  }

  /** Under a clock that never goes back, a token's standing only moves from live to expired to revoked. */
  lemma PhaseOnlyGrows(cfg: Config, s: Store, es: seq<Event>, i: nat, j: nat, h: string, now: Time, later: Time)
    requires cfg.ttl > 0 && Inv(s) && Legal(cfg, s, es) && i <= j <= |es| && now <= later
    requires h in Before(cfg, s, es, i).tokens
    ensures h in Before(cfg, s, es, j).tokens
    ensures Phase(Before(cfg, s, es, i).tokens[h], now) <= Phase(Before(cfg, s, es, j).tokens[h], later)
  {
    LaterEvolves(cfg, s, es, i, j);
  }

  lemma EffectKeepsTimes(cfg: Config, s: Store, e: Event, x: Effect, start: Time)
    requires TimesInOrder(s.tokens, start) && start <= e.now && Possible(cfg, s, e, x)
    ensures TimesInOrder(Apply(s.tokens, x, e.now), e.now)
  {
  }

  /** Nothing is created after it is revoked, or in the future. */
  lemma {:induction false} TimesStayInOrder(cfg: Config, s: Store, es: seq<Event>, start: Time)
    requires cfg.ttl > 0 && Inv(s) && Legal(cfg, s, es) && Monotone(es, start) && TimesInOrder(s.tokens, start)
    ensures TimesInOrder(Exec(cfg, s, es).tokens, if es == [] then start else es[|es| - 1].now)
  {
    if es != [] {
      hide Do, TimesInOrder, Possible, Apply, PairMatches, Legal;
      var n := |es| - 1;
      PrefixIsLegal(cfg, s, es, n);
      TimesStayInOrder(cfg, s, es[..n], start);
      RunKeepsInv(cfg, s, es[..n]);
      var x := DoHasEffect(cfg, Exec(cfg, s, es[..n]), es[n]);
      EffectKeepsTimes(cfg, Exec(cfg, s, es[..n]), es[n], x, if n == 0 then start else es[n - 1].now);
    }
  }

  // ---------------------------------------------------------------- Accounts

  predicate NoSuspensionOf(es: seq<Event>, id: Id) {
    forall i :: 0 <= i < |es| ==> es[i].call != Suspend(id)
  }

  lemma {:induction false} UserUnchanged(cfg: Config, s: Store, es: seq<Event>, id: Id)
    requires cfg.ttl > 0 && Inv(s) && Legal(cfg, s, es) && NoSuspensionOf(es, id) && id in s.users
    ensures id in Exec(cfg, s, es).users && Exec(cfg, s, es).users[id] == s.users[id]
  {
    if es != [] {
      hide Do;
      var n := |es| - 1;
      PrefixIsLegal(cfg, s, es, n);
      UserUnchanged(cfg, s, es[..n], id);
      RunKeepsInv(cfg, s, es[..n]);
      assert FreshId(Before(cfg, s, es, n), es[n]);
      DoStepsUsers(cfg, Exec(cfg, s, es[..n]), es[n]);
    }
  }

  /** After a successful Register, and whatever happens next (with any faults) short of a suspension,
      Login with the same password under any spelling of the email returns that very user. */
  lemma RegisteredUserCanLogIn(cfg: Config, s: Store, reg: Event, es: seq<Event>, login: Event)
    requires cfg.ttl > 0 && Faithful(cfg.hasher) && Inv(s) && FreshId(s, reg)
    requires reg.call.Register? && Do(cfg, s, reg).1.Authenticated?
    requires Legal(cfg, Do(cfg, s, reg).0, es) && NoSuspensionOf(es, reg.mint.userId)
    requires login.call.Login? && login.call.password == reg.call.password
    requires cfg.normalizeEmail(login.call.email) == cfg.normalizeEmail(reg.call.email)
    requires login.faults == NO_FAULTS && login.mint.secret.Some?
    requires cfg.hashToken(login.mint.secret.value) !in Exec(cfg, Do(cfg, s, reg).0, es).tokens
    ensures Do(cfg, Exec(cfg, Do(cfg, s, reg).0, es), login).1.Authenticated?
    ensures Do(cfg, Exec(cfg, Do(cfg, s, reg).0, es), login).1.user == Do(cfg, s, reg).1.user
  {
    var s1 := Do(cfg, s, reg).0;
    var user := Do(cfg, s, reg).1.user;
    DoKeepsInv(cfg, s, reg);
    assert user.id in s1.users && s1.users[user.id] == user;
    UserUnchanged(cfg, s1, es, user.id);
    RunKeepsInv(cfg, s1, es);
    FindsTheOwner(Exec(cfg, s1, es).users, user.id);
    assert user.Authenticate(login.call.password, cfg.hasher).None?;
  }

  /** A Register that meets a taken email, or is refused earlier, leaves both tables as they were. */
  lemma CollidingRegisterChangesNothing(cfg: Config, s: Store, e: Event)
    requires Inv(s) && e.call.Register? && cfg.normalizeEmail(e.call.email).Some?
    requires EmailTakenIn(s.users, cfg.normalizeEmail(e.call.email).value)
    ensures Do(cfg, s, e).0 == s && Do(cfg, s, e).1.Failed?
    ensures (e.faults.user.NoFault? && ValidatePassword(e.call.password).None? &&
             cfg.hasher.hash(e.call.password, e.mint.salt).Ok?) ==> Do(cfg, s, e).1 == Failed(EmailTaken)
  {
  }

  /** Once a suspension is stored, no later call inserts a token for that user. */
  lemma {:induction false} SuspendedGetNoToken(cfg: Config, s: Store, es: seq<Event>, id: Id)
    requires cfg.ttl > 0 && Inv(s) && Legal(cfg, s, es)
    requires id in s.users && s.users[id].status == Suspended
    ensures forall h :: h in Exec(cfg, s, es).tokens && Exec(cfg, s, es).tokens[h].userId == id ==> h in s.tokens
  {
    if es != [] {
      hide Do;
      var n := |es| - 1;
      PrefixIsLegal(cfg, s, es, n);
      SuspendedGetNoToken(cfg, s, es[..n], id);
      RunKeepsInv(cfg, s, es[..n]);
      assert FreshId(Before(cfg, s, es, n), es[n]);
      var x := DoHasEffect(cfg, Exec(cfg, s, es[..n]), es[n]);
    }
  }

  lemma FewerActive(a: Store, b: Store, id: Id, now: Time, later: Time)
    requires Evolves(a, b) && now <= later
    requires forall h :: h in b.tokens && b.tokens[h].userId == id ==> h in a.tokens
    ensures ActiveCount(b.tokens, id, later) <= ActiveCount(a.tokens, id, now)
  {
    SubsetIsSmaller(ActiveTokens(b.tokens, id, later), ActiveTokens(a.tokens, id, now));
  }

  /** So the number of sessions of a suspended user never rises again. */
  lemma SuspendedSessionsOnlyEnd(cfg: Config, s: Store, es: seq<Event>, id: Id, i: nat, j: nat, now: Time, later: Time)
    requires cfg.ttl > 0 && Inv(s) && Legal(cfg, s, es) && i <= j <= |es| && now <= later
    requires id in s.users && s.users[id].status == Suspended
    ensures ActiveCount(Before(cfg, s, es, j).tokens, id, later) <= ActiveCount(Before(cfg, s, es, i).tokens, id, now)
  {
    LaterEvolves(cfg, s, es, 0, i);
    LaterEvolves(cfg, s, es, i, j);
    assert es[..0] == [];
    SegmentIsRun(cfg, s, es, i, j);
    SuspendedGetNoToken(cfg, Before(cfg, s, es, i), es[i..j], id);
    hide Do, ActiveCount, Inv, Legal;
    FewerActive(Before(cfg, s, es, i), Before(cfg, s, es, j), id, now, later);
  }
}
