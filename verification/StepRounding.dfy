/** Whether callers notice that SQL keeps whole microseconds: the store in memory, which keeps nanoseconds,
    against the same calls over a store that rounds. */
module StepRounding {
  import opened Wrappers
  import opened Domain
  import opened Tables
  import opened Stores
  import opened Auth
  import opened Steps
  import opened StepSafety
  import opened StepLimits
  import opened StepStores

  // ---------------------------------------------------------------- The rounded state

  function KeptTable(t: TokenTable): TokenTable {
    map h | h in t :: t[h].Kept(MICROSECOND)
  }

  /** A copy just revoked: its new revocation time has not been through the store yet. */
  function DatesKept(row: TokenRow): TokenRow {
    row.Kept(MICROSECOND).(revokedAt := row.revokedAt)
  }

  /** The same call where its copies come from a store that rounds. */
  function KeptCall(c: InFlight): InFlight {
    match c.pc
    case RefreshRevokeAll(token) => c.(pc := RefreshRevokeAll(token.Kept(MICROSECOND)))
    case RefreshFindUser(token) => c.(pc := RefreshFindUser(token.Kept(MICROSECOND)))
    case RefreshUpdate(token, user) => c.(pc := RefreshUpdate(DatesKept(token), user))
    case LogoutUpdate(token) => c.(pc := LogoutUpdate(DatesKept(token)))
    case _ => c
  }

  function KeptCalls(calls: map<nat, InFlight>): map<nat, InFlight> {
    map cid | cid in calls :: KeptCall(calls[cid])
  }

  ghost predicate Rounded(m: Sys, k: Sys) {
    && m.tokens.Mem? && m.tokens.tick == NANOSECOND
    && k == Sys(m.users, Mem(KeptTable(m.tokens.byHash), MICROSECOND), KeptCalls(m.calls))
  }

  // ---------------------------------------------------------------- Times

  /** Nobody calls during the last, partial microsecond of a token. */
  ghost predicate LastMicrosecondUnused(cfg: Config, clock: iset<Time>) {
    forall n, now :: n in clock && now in clock && now < n + cfg.ttl ==> now < Floor(MICROSECOND, n + cfg.ttl)
  }

  ghost predicate ExpiresOnClock(cfg: Config, clock: iset<Time>, row: TokenRow) {
    exists n :: n in clock && row.expiresAt == n + cfg.ttl
  }

  ghost predicate OnClock(cfg: Config, clock: iset<Time>, s: Sys) {
    && (forall h :: h in TableOf(s) ==> ExpiresOnClock(cfg, clock, TableOf(s)[h]))
    && (forall cid :: cid in s.calls ==> s.calls[cid].now in clock)
  }

  lemma SameVerdict(cfg: Config, clock: iset<Time>, row: TokenRow, now: Time)
    requires LastMicrosecondUnused(cfg, clock) && ExpiresOnClock(cfg, clock, row) && now in clock
    ensures row.Kept(MICROSECOND).Validate(now) == row.Validate(now)
  {
    RoundingShortensLife(row, now);
  }

  // ---------------------------------------------------------------- One operation

  ghost predicate RoundedStore(m: TokenStore, k: TokenStore) {
    m.Mem? && m.tick == NANOSECOND && k == Mem(KeptTable(m.byHash), MICROSECOND)
  }

  lemma CreateRounded(m: TokenStore, k: TokenStore, row: TokenRow, f: Fault)
    requires RoundedStore(m, k)
    ensures RoundedStore(Create(m, row, f).0, Create(k, row, f).0) && Create(m, row, f).1 == Create(k, row, f).1
  {
    assert row.Kept(NANOSECOND) == row;
    assert KeptTable(m.byHash[row.hash := row]) == KeptTable(m.byHash)[row.hash := row.Kept(MICROSECOND)];
  }

  lemma UpdateRounded(m: TokenStore, k: TokenStore, token: TokenRow, f: Fault)
    requires RoundedStore(m, k)
    ensures RoundedStore(Update(m, token, f).0, Update(k, DatesKept(token), f).0)
    ensures Update(m, token, f).1 == Update(k, DatesKept(token), f).1
  {
    assert token.RevocationKept(NANOSECOND) == token;
    assert DatesKept(token).RevocationKept(MICROSECOND) == token.Kept(MICROSECOND);
    assert KeptTable(m.byHash[token.hash := token]) == KeptTable(m.byHash)[token.hash := token.Kept(MICROSECOND)];
  }

  lemma RevokeAllRounded(m: TokenStore, k: TokenStore, userId: Id, now: Time, f: Fault)
    requires RoundedStore(m, k)
    ensures RoundedStore(RevokeAllFor(m, userId, now, f).0, RevokeAllFor(k, userId, now, f).0)
    ensures RevokeAllFor(m, userId, now, f).1 == RevokeAllFor(k, userId, now, f).1
  {
    assert Floor(NANOSECOND, now) == now;
    var t := m.byHash;
    assert KeptTable(RevokeAll(t, userId, now)) == RevokeAll(KeptTable(t), userId, Floor(MICROSECOND, now));
  }

  // ---------------------------------------------------------------- One step

  ghost predicate NextIsRounded(cfg: Config, users: UserTable, m: TokenStore, k: TokenStore,
                                c: InFlight, f: Fault, mint: Mint) {
    var (users1, tokens1, c1) := Next(cfg, users, m, c, f, mint);
    var (users2, tokens2, c2) := Next(cfg, users, k, KeptCall(c), f, mint);
    users1 == users2 && RoundedStore(tokens1, tokens2) && c2 == KeptCall(c1)
  }

  lemma FindKept(m: TokenStore, k: TokenStore, h: string, f: Fault)
    requires RoundedStore(m, k)
    ensures var a, b := Find(m, h, f), Find(k, h, f);
            if a.Ok? then h in m.byHash && a.value == m.byHash[h] && b == Ok(a.value.Kept(MICROSECOND)) else b == a
  {
  }

  lemma FindRounded(cfg: Config, clock: iset<Time>, users: UserTable, m: TokenStore, k: TokenStore,
                    c: InFlight, f: Fault, mint: Mint)
    requires RoundedStore(m, k) && LastMicrosecondUnused(cfg, clock) && c.now in clock
    requires forall h :: h in m.byHash ==> ExpiresOnClock(cfg, clock, m.byHash[h])
    requires c.pc.RefreshFind?
    ensures NextIsRounded(cfg, users, m, k, c, f, mint)
  {
    FindKept(m, k, c.pc.hash, f);
    if c.pc.hash in m.byHash {
      SameVerdict(cfg, clock, m.byHash[c.pc.hash], c.now);
    }
    hide Floor, RoundedStore, Find, LastMicrosecondUnused, ExpiresOnClock;
    assert KeptCall(c) == c;
    var found := Find(m, c.pc.hash, f);
    if found.Ok? {
      assert found.value.Kept(MICROSECOND).revokedAt.Some? <==> found.value.revokedAt.Some?;
    }
  }

  lemma LogoutFindRounded(cfg: Config, users: UserTable, m: TokenStore, k: TokenStore,
                          c: InFlight, f: Fault, mint: Mint)
    requires RoundedStore(m, k) && c.pc.LogoutFind?
    ensures NextIsRounded(cfg, users, m, k, c, f, mint)
  {
    hide Floor, RoundedStore, Find;
    FindKept(m, k, c.pc.hash, f);
    assert KeptCall(c) == c;
  }

  lemma RevokeAllStepRounded(cfg: Config, users: UserTable, m: TokenStore, k: TokenStore,
                             c: InFlight, f: Fault, mint: Mint)
    requires RoundedStore(m, k) && c.pc.RefreshRevokeAll?
    ensures NextIsRounded(cfg, users, m, k, c, f, mint)
  {
    hide Floor, RoundedStore, RevokeAllFor;
    RevokeAllRounded(m, k, c.pc.token.userId, c.now, f);
    assert KeptCall(c) == c.(pc := RefreshRevokeAll(c.pc.token.Kept(MICROSECOND)));
  }

  lemma UpdateStepRounded(cfg: Config, users: UserTable, m: TokenStore, k: TokenStore,
                          c: InFlight, f: Fault, mint: Mint)
    requires RoundedStore(m, k) && (c.pc.RefreshUpdate? || c.pc.LogoutUpdate?)
    ensures NextIsRounded(cfg, users, m, k, c, f, mint)
  {
    hide RoundedStore, Update, DatesKept;
    UpdateRounded(m, k, c.pc.token, f);
    assert KeptCall(c).pc.token == DatesKept(c.pc.token);
  }

  lemma FindUserRounded(cfg: Config, users: UserTable, m: TokenStore, k: TokenStore,
                        c: InFlight, f: Fault, mint: Mint)
    requires RoundedStore(m, k) && c.pc.RefreshFindUser? && c.pc.token.revokedAt.None?
    ensures NextIsRounded(cfg, users, m, k, c, f, mint)
  {
    hide Floor, RoundedStore;
    var token := c.pc.token;
    assert KeptCall(c) == c.(pc := RefreshFindUser(token.Kept(MICROSECOND)));
    assert token.Kept(MICROSECOND).Revoke(c.now) == DatesKept(token.Revoke(c.now));
  }

  lemma SameIdsUnused(m: TokenStore, k: TokenStore, id: Id)
    requires RoundedStore(m, k)
    ensures UnusedTokenId(m, id) <==> UnusedTokenId(k, id)
  {
    assert forall h :: h in m.byHash ==> k.byHash[h].id == m.byHash[h].id;
  }

  lemma SessionCreateRounded(cfg: Config, users: UserTable, m: TokenStore, k: TokenStore,
                             c: InFlight, f: Fault, mint: Mint)
    requires RoundedStore(m, k) && c.pc.SessionCreate?
    ensures NextIsRounded(cfg, users, m, k, c, f, mint)
  {
    hide RoundedStore, UnusedTokenId, Create;
    assert KeptCall(c) == c;
    var row := NewRefreshToken(cfg, c.pc.user.id, c.now, mint);
    if row.Ok? {
      SameIdsUnused(m, k, row.value.id);
      CreateRounded(m, k, row.value, f);
    }
  }

  lemma OtherStepRounded(cfg: Config, users: UserTable, m: TokenStore, k: TokenStore,
                         c: InFlight, f: Fault, mint: Mint)
    requires RoundedStore(m, k)
    requires c.pc.RegisterCreate? || c.pc.LoginFind? || c.pc.SuspendFind? || c.pc.SuspendUpdate?
             || c.pc.SessionIssue? || c.pc.Done?
    ensures NextIsRounded(cfg, users, m, k, c, f, mint)
  {
    hide RoundedStore, FindUserByEmail, CreateUser, UpdateUser;
    assert KeptCall(c) == c;
  }

  lemma NextRounded(cfg: Config, clock: iset<Time>, users: UserTable, m: TokenStore, k: TokenStore,
                    c: InFlight, f: Fault, mint: Mint)
    requires RoundedStore(m, k) && LastMicrosecondUnused(cfg, clock) && c.now in clock
    requires forall h :: h in m.byHash ==> ExpiresOnClock(cfg, clock, m.byHash[h])
    requires c.pc.RefreshFindUser? ==> c.pc.token.revokedAt.None?
    ensures NextIsRounded(cfg, users, m, k, c, f, mint)
  {
    hide NextIsRounded, ExpiresOnClock, LastMicrosecondUnused;
    match c.pc
    case RefreshFind(_) => FindRounded(cfg, clock, users, m, k, c, f, mint);
    case LogoutFind(_) => LogoutFindRounded(cfg, users, m, k, c, f, mint);
    case RefreshRevokeAll(_) => RevokeAllStepRounded(cfg, users, m, k, c, f, mint);
    case RefreshUpdate(_, _) => UpdateStepRounded(cfg, users, m, k, c, f, mint);
    case LogoutUpdate(_) => UpdateStepRounded(cfg, users, m, k, c, f, mint);
    case RefreshFindUser(_) => FindUserRounded(cfg, users, m, k, c, f, mint);
    case SessionCreate(_) => SessionCreateRounded(cfg, users, m, k, c, f, mint);
    case _ => OtherStepRounded(cfg, users, m, k, c, f, mint);
  }

  lemma StartRounded(cfg: Config, call: Call, now: Time, mint: Mint)
    ensures KeptCall(Start(cfg, call, now, mint)) == Start(cfg, call, now, mint)
  {
  }

  lemma StepRounded(cfg: Config, clock: iset<Time>, m: Sys, k: Sys, a: Action)
    requires SysOk(cfg, m) && Rounded(m, k) && LastMicrosecondUnused(cfg, clock) && OnClock(cfg, clock, m)
    ensures Rounded(Step(cfg, m, a), Step(cfg, k, a))
  {
    hide Next, Start, ExpiresOnClock, LastMicrosecondUnused, KeptCall, KeptTable;
    if a.Begin? {
      StartRounded(cfg, a.call, a.now, a.mint);
    } else if a.cid in m.calls {
      CallIsOk(cfg, m, a.cid);
      assert TableOf(m) == m.tokens.byHash;
      hide SysOk, CallOk;
      NextRounded(cfg, clock, m.users, m.tokens, k.tokens, m.calls[a.cid], a.fault, a.mint);
    }
  }

  // ---------------------------------------------------------------- The clock of a run

  lemma InsertedOnClock(cfg: Config, s: Sys, a: Action, h: string)
    requires SysOk(cfg, s) && s.tokens.tick == NANOSECOND && h in TableOf(Step(cfg, s, a)) && h !in TableOf(s)
    ensures a.Advance? && a.cid in s.calls && TableOf(Step(cfg, s, a))[h].expiresAt == s.calls[a.cid].now + cfg.ttl
  {
    if a.Advance? && a.cid in s.calls && !s.calls[a.cid].pc.SessionCreate? {
      OthersInsertNothing(cfg, s, a.cid, a.fault, a.mint);
    }
  }

  lemma StepOnClock(cfg: Config, clock: iset<Time>, s: Sys, a: Action)
    requires SysOk(cfg, s) && s.tokens.tick == NANOSECOND && OnClock(cfg, clock, s)
    requires a.Begin? ==> a.now in clock
    ensures OnClock(cfg, clock, Step(cfg, s, a))
  {
    var s' := Step(cfg, s, a);
    StepIsSound(cfg, s, a);
    if a.Advance? && a.cid in s.calls {
      TimeNeverChanges(cfg, s, a.cid, a.fault, a.mint);
    }
    hide SysOk, Next;
    forall h | h in TableOf(s') ensures ExpiresOnClock(cfg, clock, TableOf(s')[h]) {
      if h in TableOf(s) {
        assert TableOf(s')[h].expiresAt == TableOf(s)[h].expiresAt;
      } else {
        InsertedOnClock(cfg, s, a, h);
      }
    }
  }

  lemma {:induction false} RunOnClock(cfg: Config, clock: iset<Time>, acts: seq<Action>)
    requires Timed(acts, clock)
    ensures OnClock(cfg, clock, Run(cfg, Idle(NANOSECOND), acts))
  {
    if acts != [] {
      var n := |acts| - 1;
      RunOnClock(cfg, clock, acts[..n]);
      RunIsSound(cfg, Idle(NANOSECOND), acts[..n]);
      hide Step, OnClock, SysOk;
      StepOnClock(cfg, clock, Run(cfg, Idle(NANOSECOND), acts[..n]), acts[n]);
    }
  }

  lemma {:induction false} RunRounded(cfg: Config, clock: iset<Time>, acts: seq<Action>)
    requires Timed(acts, clock) && LastMicrosecondUnused(cfg, clock)
    ensures Rounded(Run(cfg, Idle(NANOSECOND), acts), Run(cfg, Idle(MICROSECOND), acts))
  {
    if acts != [] {
      var n := |acts| - 1;
      RunRounded(cfg, clock, acts[..n]);
      RunOnClock(cfg, clock, acts[..n]);
      RunIsSound(cfg, Idle(NANOSECOND), acts[..n]);
      hide Step, OnClock, Rounded, SysOk;
      StepRounded(cfg, clock, Run(cfg, Idle(NANOSECOND), acts[..n]), Run(cfg, Idle(MICROSECOND), acts[..n]), acts[n]);
    }
  }

  // ---------------------------------------------------------------- What callers see

  /** The finished calls and their replies. */
  function Replies(s: Sys): map<nat, Reply> {
    map cid | cid in s.calls && s.calls[cid].pc.Done? :: s.calls[cid].pc.reply
  }

  lemma SameReplies(m: Sys, k: Sys, q: Sys)
    requires Rounded(m, k) && Alike(k, q)
    ensures Replies(q) == Replies(m)
  {
  }

  lemma IdleIsRounded(cfg: Config)
    ensures SysOk(cfg, Idle(MICROSECOND)) && Alike(Idle(MICROSECOND), SQL_IDLE)
  {
  }

  /** Register, then refresh the new token. */
  function Late(email: string, password: string, n: Time, now: Time, mint: Mint): seq<Action>
    requires mint.secret.Some?
  {
    Registration(email, password, n, mint) + [Begin(1, Refresh(mint.secret.value), now, mint), Go(1, mint)]
  }

  lemma RefreshFinds(cfg: Config, s: Sys, secret: string, now: Time, mint: Mint, row: TokenRow)
    requires 1 !in s.calls && Find(s.tokens, cfg.hashToken(secret), NoFault) == Ok(row) && row.revokedAt.None?
    ensures var s' := Run(cfg, s, [Begin(1, Refresh(secret), now, mint), Go(1, mint)]);
            && 1 in s'.calls
            && s'.calls[1].pc == if now < row.expiresAt then RefreshFindUser(row) else Done(Failed(TokenExpired))
  {
    hide Find;
    RunTwo(cfg, s, Begin(1, Refresh(secret), now, mint), Go(1, mint));
  }

  lemma LateRefreshIsNoticed(cfg: Config, n: Time, now: Time, email: string, password: string, mint: Mint)
    requires cfg.ttl > 0 && mint.secret.Some? && NewUser(cfg, email, password, n, mint).Ok?
    requires Floor(MICROSECOND, n + cfg.ttl) <= now < n + cfg.ttl
    ensures var acts := Late(email, password, n, now, mint);
            && 1 !in Replies(Run(cfg, Idle(NANOSECOND), acts))
            && 1 in Replies(Run(cfg, SQL_IDLE, acts)) && Replies(Run(cfg, SQL_IDLE, acts))[1] == Failed(TokenExpired)
  {
    hide Run, Step;
    var first, secret := Registration(email, password, n, mint), mint.secret.value;
    var late := [Begin(1, Refresh(secret), now, mint), Go(1, mint)];
    var row := TokenRow(mint.tokenId, mint.userId, cfg.hashToken(secret), n, n + cfg.ttl, None);
    RegistrationStores(cfg, n, email, password, mint);
    RunSplits(cfg, Idle(NANOSECOND), first, late);
    RunSplits(cfg, SQL_IDLE, first, late);
    SqlHasIt(map[mint.tokenId := row.Kept(MICROSECOND)], mint.tokenId);
    RefreshFinds(cfg, Run(cfg, Idle(NANOSECOND), first), secret, now, mint, row);
    RefreshFinds(cfg, Run(cfg, SQL_IDLE, first), secret, now, mint, row.Kept(MICROSECOND));
  }

  lemma SqlHasIt(r: Rows, id: Id)
    requires r.Keys == {id}
    ensures SqlFind(r, r[id].hash) == Ok(r[id])
  {
  }

  /** Callers of a service over SQL get, in every interleaving and whatever fails, the replies that they
      would get over the store in memory, if and only if no call is ever made in the last, partial
      microsecond of a token; provided that anyone can register. */
  lemma RoundingIsUnnoticedWhen(cfg: Config, clock: iset<Time>, email: string, password: string, mint: Mint)
    requires cfg.ttl > 0 && mint.secret.Some? && NewUser(cfg, email, password, 0, mint).Ok?
    ensures (forall acts :: Timed(acts, clock) ==>
               Replies(Run(cfg, SQL_IDLE, acts)) == Replies(Run(cfg, Idle(NANOSECOND), acts))) <==>
            LastMicrosecondUnused(cfg, clock)
  {
    if LastMicrosecondUnused(cfg, clock) {
      forall acts | Timed(acts, clock)
        ensures Replies(Run(cfg, SQL_IDLE, acts)) == Replies(Run(cfg, Idle(NANOSECOND), acts))
      {
        RunRounded(cfg, clock, acts);
        IdleIsRounded(cfg);
        SqlIsATableOfMicroseconds(cfg, Idle(MICROSECOND), SQL_IDLE, acts);
        SameReplies(Run(cfg, Idle(NANOSECOND), acts), Run(cfg, Idle(MICROSECOND), acts), Run(cfg, SQL_IDLE, acts));
      }
    } else {
      var n, now :| n in clock && now in clock && Floor(MICROSECOND, n + cfg.ttl) <= now < n + cfg.ttl;
      LateRefreshIsNoticed(cfg, n, now, email, password, mint);
      assert Timed(Late(email, password, n, now, mint), clock);
    }
  }
}
