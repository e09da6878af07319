/** Steps over the SQL store against steps over the table by hash. At the resolution of the SQL columns the
    two cannot be told apart; the repository in memory, which keeps nanoseconds, is like them exactly when
    the times it is given are whole microseconds. */
module StepStores {
  import opened Wrappers
  import opened Domain
  import opened Tables
  import opened Stores
  import opened Auth
  import opened Steps
  import opened StepSafety

  // ---------------------------------------------------------------- One operation

  ghost predicate SameRows(a: TokenStore, b: TokenStore) {
    a.Mem? && b.Sql? && Agree(a.byHash, b.rows)
  }

  /** Same users, same calls with the same copies and replies, and token rows that agree. */
  ghost predicate Alike(m: Sys, q: Sys) {
    SameRows(m.tokens, q.tokens) && m.users == q.users && m.calls == q.calls
  }

  /** A store of that resolution keeps the same of t as SQL does. */
  predicate KeptAlike(tick: Tick, t: Time) {
    Floor(tick, t) == Floor(MICROSECOND, t)
  }

  /** All times that a call at now can write are kept alike. */
  predicate OnSameClock(cfg: Config, tick: Tick, now: Time) {
    KeptAlike(tick, now) && KeptAlike(tick, now + cfg.ttl)
  }

  lemma KeptOnce(row: TokenRow)
    ensures row.Kept(MICROSECOND).Kept(MICROSECOND) == row.Kept(MICROSECOND)
    ensures row.RevocationKept(MICROSECOND).RevocationKept(MICROSECOND) == row.RevocationKept(MICROSECOND)
  {
  }

  lemma FindAlike(a: TokenStore, b: TokenStore, h: string, f: Fault)
    requires SameRows(a, b)
    ensures Find(a, h, f) == Find(b, h, f)
  {
  }

  lemma UpdateAlike(a: TokenStore, b: TokenStore, copy: TokenRow, f: Fault)
    requires SameRows(a, b) && CopyOf(a.byHash, copy)
    requires copy.RevocationKept(a.tick) == copy.RevocationKept(MICROSECOND)
    ensures SameRows(Update(a, copy, f).0, Update(b, copy, f).0) && Update(a, copy, f).1 == Update(b, copy, f).1
  {
    KeptOnce(copy);
    assert SqlUpdate(b.rows, copy.RevocationKept(MICROSECOND)) == SqlUpdate(b.rows, copy);
    hide Agree, SqlUpdate, UpdateToken;
    UpdateAgrees(a.byHash, b.rows, copy.RevocationKept(MICROSECOND));
  }

  lemma RevokeAllAlike(a: TokenStore, b: TokenStore, userId: Id, now: Time, f: Fault)
    requires SameRows(a, b) && KeptAlike(a.tick, now)
    ensures SameRows(RevokeAllFor(a, userId, now, f).0, RevokeAllFor(b, userId, now, f).0)
    ensures RevokeAllFor(a, userId, now, f).1 == RevokeAllFor(b, userId, now, f).1
  {
    assert SqlRevokeAll(b.rows, userId, Floor(MICROSECOND, now)) == SqlRevokeAll(b.rows, userId, now);
    hide Agree, SqlRevokeAll, RevokeAll;
    RevokeAllAgrees(a.byHash, b.rows, userId, Floor(MICROSECOND, now));
  }

  lemma CreateAlike(a: TokenStore, b: TokenStore, row: TokenRow, f: Fault)
    requires SameRows(a, b) && UnusedTokenId(a, row.id) && row.Kept(a.tick) == row.Kept(MICROSECOND)
    ensures SameRows(Create(a, row, f).0, Create(b, row, f).0) && Create(a, row, f).1 == Create(b, row, f).1
  {
    KeptOnce(row);
    SameIdsUsed(a, b, row.id);
    hide Agree, CreateToken;
    CreateAgrees(a.byHash, b.rows, row.Kept(MICROSECOND));
    AgreeingRowsMeetSchema(a.byHash, b.rows);
  }

  lemma SameIdsUsed(a: TokenStore, b: TokenStore, id: Id)
    requires SameRows(a, b)
    ensures UnusedTokenId(a, id) == UnusedTokenId(b, id)
  {
  }

  // ---------------------------------------------------------------- One step

  lemma WrittenCopies(cfg: Config, users: UserTable, m: TokenStore, c: InFlight)
    requires m.Mem? && CallOk(cfg, users, m.byHash, m.tick, c) && OnSameClock(cfg, m.tick, c.now)
    requires c.pc.RefreshUpdate? || c.pc.LogoutUpdate?
    ensures CopyOf(m.byHash, c.pc.token)
    ensures c.pc.token.RevocationKept(m.tick) == c.pc.token.RevocationKept(MICROSECOND)
  {
  }

  ghost predicate NextIsAlike(cfg: Config, users: UserTable, m: TokenStore, q: TokenStore,
                              c: InFlight, f: Fault, mint: Mint) {
    var a, b := Next(cfg, users, m, c, f, mint), Next(cfg, users, q, c, f, mint);
    a.0 == b.0 && SameRows(a.1, b.1) && a.2 == b.2
  }

  lemma CreateStepAlike(cfg: Config, users: UserTable, m: TokenStore, q: TokenStore, c: InFlight, f: Fault, mint: Mint)
    requires SameRows(m, q) && OnSameClock(cfg, m.tick, c.now) && c.pc.SessionCreate?
    ensures NextIsAlike(cfg, users, m, q, c, f, mint)
  {
    hide SameRows, Create, UnusedTokenId, Floor;
    var row := NewRefreshToken(cfg, c.pc.user.id, c.now, mint);
    if row.Ok? {
      SameIdsUsed(m, q, row.value.id);
      if UnusedTokenId(m, row.value.id) {
        CreateAlike(m, q, row.value, f);
      }
    }
  }

  lemma TokenStepAlike(cfg: Config, users: UserTable, m: TokenStore, q: TokenStore, c: InFlight, f: Fault, mint: Mint)
    requires SameRows(m, q) && CallOk(cfg, users, m.byHash, m.tick, c) && OnSameClock(cfg, m.tick, c.now)
    requires c.pc.RefreshRevokeAll? || c.pc.RefreshUpdate? || c.pc.LogoutUpdate?
    ensures NextIsAlike(cfg, users, m, q, c, f, mint)
  {
    if !c.pc.RefreshRevokeAll? {
      WrittenCopies(cfg, users, m, c);
    }
    hide CallOk, SameRows, Update, RevokeAllFor, Floor;
    match c.pc
    case RefreshRevokeAll(token) => RevokeAllAlike(m, q, token.userId, c.now, f);
    case RefreshUpdate(token, _) => UpdateAlike(m, q, token, f);
    case LogoutUpdate(token) => UpdateAlike(m, q, token, f);
  }

  lemma FindStepAlike(cfg: Config, users: UserTable, m: TokenStore, q: TokenStore, c: InFlight, f: Fault, mint: Mint)
    requires SameRows(m, q) && (c.pc.RefreshFind? || c.pc.LogoutFind?)
    ensures NextIsAlike(cfg, users, m, q, c, f, mint)
  {
    hide SameRows, Find;
    FindAlike(m, q, c.pc.hash, f);
  }

  lemma UserStepAlike(cfg: Config, users: UserTable, m: TokenStore, q: TokenStore, c: InFlight, f: Fault, mint: Mint)
    requires SameRows(m, q)
    requires c.pc.RegisterCreate? || c.pc.LoginFind? || c.pc.RefreshFindUser? || c.pc.SuspendFind?
             || c.pc.SuspendUpdate? || c.pc.SessionIssue? || c.pc.Done?
    ensures NextIsAlike(cfg, users, m, q, c, f, mint)
  {
    hide SameRows;
  }

  lemma NextAlike(cfg: Config, users: UserTable, m: TokenStore, q: TokenStore, c: InFlight, f: Fault, mint: Mint)
    requires SameRows(m, q) && CallOk(cfg, users, m.byHash, m.tick, c) && OnSameClock(cfg, m.tick, c.now)
    ensures NextIsAlike(cfg, users, m, q, c, f, mint)
  {
    hide CallOk, SameRows, NextIsAlike, OnSameClock;
    match c.pc
    case RefreshFind(_) => FindStepAlike(cfg, users, m, q, c, f, mint);
    case LogoutFind(_) => FindStepAlike(cfg, users, m, q, c, f, mint);
    case SessionCreate(_) => CreateStepAlike(cfg, users, m, q, c, f, mint);
    case RefreshRevokeAll(_) => TokenStepAlike(cfg, users, m, q, c, f, mint);
    case RefreshUpdate(_, _) => TokenStepAlike(cfg, users, m, q, c, f, mint);
    case LogoutUpdate(_) => TokenStepAlike(cfg, users, m, q, c, f, mint);
    case _ => UserStepAlike(cfg, users, m, q, c, f, mint);
  }

  // ---------------------------------------------------------------- Whole runs

  /** Every call in s and every call begun in acts is made at a time whose writes are kept alike. */
  ghost predicate RunsOnSameClock(cfg: Config, s: Sys, tick: Tick, acts: seq<Action>) {
    && (forall cid :: cid in s.calls ==> OnSameClock(cfg, tick, s.calls[cid].now))
    && (forall i :: 0 <= i < |acts| && acts[i].Begin? ==> OnSameClock(cfg, tick, acts[i].now))
  }

  lemma {:induction false} ClockIsKept(cfg: Config, s: Sys, tick: Tick, acts: seq<Action>, cid: nat)
    requires RunsOnSameClock(cfg, s, tick, acts) && cid in Run(cfg, s, acts).calls
    ensures OnSameClock(cfg, tick, Run(cfg, s, acts).calls[cid].now)
  {
    if acts != [] {
      hide OnSameClock, Next;
      var n := |acts| - 1;
      var mid := Run(cfg, s, acts[..n]);
      if cid in mid.calls {
        ClockIsKept(cfg, s, tick, acts[..n], cid);
        if acts[n].Advance? && acts[n].cid == cid {
          TimeNeverChanges(cfg, mid, cid, acts[n].fault, acts[n].mint);
        }
      }
    }
  }

  lemma TimeNeverChanges(cfg: Config, s: Sys, cid: nat, f: Fault, mint: Mint)
    requires cid in s.calls
    ensures Next(cfg, s.users, s.tokens, s.calls[cid], f, mint).2.now == s.calls[cid].now
  {
  }

  lemma StepAlike(cfg: Config, m: Sys, q: Sys, a: Action)
    requires SysOk(cfg, m) && Alike(m, q)
    requires a.Advance? && a.cid in m.calls ==> OnSameClock(cfg, m.tokens.tick, m.calls[a.cid].now)
    ensures Alike(Step(cfg, m, a), Step(cfg, q, a))
  {
    hide Next, SysOk, CallOk, OnSameClock;
    if a.Advance? && a.cid in m.calls {
      CallIsOk(cfg, m, a.cid);
      NextAlike(cfg, m.users, m.tokens, q.tokens, m.calls[a.cid], a.fault, a.mint);
    }
  }

  lemma {:induction false} AlikeAsLongAsTimesAre(cfg: Config, m: Sys, q: Sys, acts: seq<Action>)
    requires SysOk(cfg, m) && Alike(m, q) && RunsOnSameClock(cfg, m, m.tokens.tick, acts)
    ensures Alike(Run(cfg, m, acts), Run(cfg, q, acts))
  {
    if acts != [] {
      hide Step, SysOk, OnSameClock, Alike;
      var n := |acts| - 1;
      AlikeAsLongAsTimesAre(cfg, m, q, acts[..n]);
      RunIsSound(cfg, m, acts[..n]);
      var m1, a := Run(cfg, m, acts[..n]), acts[n];
      if a.Advance? && a.cid in m1.calls {
        ClockIsKept(cfg, m, m.tokens.tick, acts[..n], a.cid);
      }
      StepAlike(cfg, m1, Run(cfg, q, acts[..n]), a);
    }
  }

  /** In every interleaving, with every pattern of faults and at any times, SQL gives every call the same
      answers as a table by hash that keeps whole microseconds, and their rows stay copies of each other.
      So all that StepSafety, StepLimits and StepSessions prove of such a table holds over SQL. */
  lemma SqlIsATableOfMicroseconds(cfg: Config, m: Sys, q: Sys, acts: seq<Action>)
    requires SysOk(cfg, m) && Alike(m, q) && m.tokens.tick == MICROSECOND
    ensures Alike(Run(cfg, m, acts), Run(cfg, q, acts))
  {
    AlikeAsLongAsTimesAre(cfg, m, q, acts);
  }

  const SQL_IDLE := Sys(map[], Sql(map[]), map[])

  /** Calls are made only at times of the clock. */
  ghost predicate Timed(acts: seq<Action>, clock: iset<Time>) {
    forall i :: 0 <= i < |acts| && acts[i].Begin? ==> acts[i].now in clock
  }

  /** Memory and SQL give the same copies and replies in every interleaving, whatever fails, if and only if
      the clock and the refresh TTL make all times whole microseconds, provided that anyone can register. */
  lemma StoresAreIndistinguishableWhen(cfg: Config, clock: iset<Time>, email: string, password: string, mint: Mint)
    requires cfg.ttl > 0 && mint.secret.Some? && NewUser(cfg, email, password, 0, mint).Ok?
    ensures (forall acts :: Timed(acts, clock) ==>
               Alike(Run(cfg, Idle(NANOSECOND), acts), Run(cfg, SQL_IDLE, acts))) <==>
            (forall now :: now in clock ==> OnTick(MICROSECOND, now) && OnTick(MICROSECOND, now + cfg.ttl))
  {
    var m := Idle(NANOSECOND);
    if forall now :: now in clock ==> OnTick(MICROSECOND, now) && OnTick(MICROSECOND, now + cfg.ttl) {
      forall acts | Timed(acts, clock) ensures Alike(Run(cfg, m, acts), Run(cfg, SQL_IDLE, acts)) {
        AlikeAsLongAsTimesAre(cfg, m, SQL_IDLE, acts);
      }
    } else {
      var now :| now in clock && !(OnTick(MICROSECOND, now) && OnTick(MICROSECOND, now + cfg.ttl));
      var acts := Registration(email, password, now, mint);
      RegistrationTellsApart(cfg, now, email, password, mint);
      assert Timed(acts, clock);
    }
  }

  /** Up to the insertion of the first token. */
  function Registration(email: string, password: string, now: Time, mint: Mint): seq<Action> {
    [Begin(0, Register(email, password), now, mint), Go(0, mint), Go(0, mint)]
  }

  lemma RegistrationReachesCreate(cfg: Config, tokens: TokenStore, now: Time,
                                  email: string, password: string, mint: Mint)
    requires NewUser(cfg, email, password, now, mint).Ok?
    ensures var acts, user := Registration(email, password, now, mint), NewUser(cfg, email, password, now, mint).value;
            Step(cfg, Step(cfg, Sys(map[], tokens, map[]), acts[0]), acts[1]) ==
            Sys(map[user.id := user], tokens,
                map[0 := InFlight(Register(email, password), now, SessionCreate(user), false)])
  {
  }

  /** Memory keeps the row as it is, SQL its whole microseconds. */
  lemma FirstCreate(cfg: Config, s: Sys, mint: Mint)
    requires cfg.ttl > 0 && mint.secret.Some? && s.calls.Keys == {0} && s.calls[0].pc.SessionCreate?
    requires s.tokens == Mem(map[], NANOSECOND) || s.tokens == Sql(map[])
    ensures var c, h, s' := s.calls[0], cfg.hashToken(mint.secret.value), Step(cfg, s, Go(0, mint));
            var row := TokenRow(mint.tokenId, c.pc.user.id, h, c.now, c.now + cfg.ttl, None);
            && s'.calls.Keys == {0}
            && s'.tokens == if s.tokens.Mem? then Mem(map[h := row], NANOSECOND)
                            else Sql(map[mint.tokenId := row.Kept(MICROSECOND)])
  {
    var c := s.calls[0];
    var row := TokenRow(mint.tokenId, c.pc.user.id, cfg.hashToken(mint.secret.value), c.now, c.now + cfg.ttl, None);
    assert row.Kept(NANOSECOND) == row;
  }

  lemma RegistrationStores(cfg: Config, now: Time, email: string, password: string, mint: Mint)
    requires cfg.ttl > 0 && mint.secret.Some? && NewUser(cfg, email, password, now, mint).Ok?
    ensures var acts, h := Registration(email, password, now, mint), cfg.hashToken(mint.secret.value);
            var row := TokenRow(mint.tokenId, mint.userId, h, now, now + cfg.ttl, None);
            var m, q := Run(cfg, Idle(NANOSECOND), acts), Run(cfg, SQL_IDLE, acts);
            && m.tokens == Mem(map[h := row], NANOSECOND) && m.calls.Keys == {0}
            && q.tokens == Sql(map[mint.tokenId := row.Kept(MICROSECOND)]) && q.calls.Keys == {0}
  {
    hide Run, Step;
    var acts := Registration(email, password, now, mint);
    RunThree(cfg, Idle(NANOSECOND), acts[0], acts[1], acts[2]);
    RunThree(cfg, SQL_IDLE, acts[0], acts[1], acts[2]);
    RegistrationReachesCreate(cfg, Mem(map[], NANOSECOND), now, email, password, mint);
    RegistrationReachesCreate(cfg, Sql(map[]), now, email, password, mint);
    FirstCreate(cfg, Step(cfg, Step(cfg, Idle(NANOSECOND), acts[0]), acts[1]), mint);
    FirstCreate(cfg, Step(cfg, Step(cfg, SQL_IDLE, acts[0]), acts[1]), mint);
  }

  lemma RegistrationTellsApart(cfg: Config, now: Time, email: string, password: string, mint: Mint)
    requires cfg.ttl > 0 && mint.secret.Some? && NewUser(cfg, email, password, now, mint).Ok?
    requires !OnTick(MICROSECOND, now) || !OnTick(MICROSECOND, now + cfg.ttl)
    ensures var acts := Registration(email, password, now, mint);
            !Alike(Run(cfg, Idle(NANOSECOND), acts), Run(cfg, SQL_IDLE, acts))
  {
    RegistrationStores(cfg, now, email, password, mint);
    hide Run;
    var acts := Registration(email, password, now, mint);
    var m, q := Run(cfg, Idle(NANOSECOND), acts), Run(cfg, SQL_IDLE, acts);
    assert !StoredUnderId(m.tokens.byHash, q.tokens.rows, cfg.hashToken(mint.secret.value));
  }

  lemma RunThree(cfg: Config, s: Sys, x: Action, y: Action, z: Action)
    ensures Run(cfg, s, [x, y, z]) == Step(cfg, Step(cfg, Step(cfg, s, x), y), z)
  {
    assert [x, y, z] == [x] + [y, z];
    RunFirst(cfg, s, x, [y, z]);
    RunTwo(cfg, Step(cfg, s, x), y, z);
  }

  /** A revoked SQL row stays revoked, with its other columns unchanged, in every interleaving and at any
      times. */
  lemma SqlRevocationIsForGood(cfg: Config, acts: seq<Action>, more: seq<Action>, id: Id)
    requires Run(cfg, SQL_IDLE, acts).tokens.Sql? && id in Run(cfg, SQL_IDLE, acts).tokens.rows
    ensures Run(cfg, SQL_IDLE, acts + more).tokens.Sql? && id in Run(cfg, SQL_IDLE, acts + more).tokens.rows
    ensures var row, row' := Run(cfg, SQL_IDLE, acts).tokens.rows[id], Run(cfg, SQL_IDLE, acts + more).tokens.rows[id];
            row.SameToken(row') && (row.revokedAt.Some? ==> row'.revokedAt.Some?)
  {
    SqlIsATableOfMicroseconds(cfg, Idle(MICROSECOND), SQL_IDLE, acts);
    SqlIsATableOfMicroseconds(cfg, Idle(MICROSECOND), SQL_IDLE, acts + more);
    var m, q := Run(cfg, Idle(MICROSECOND), acts), Run(cfg, SQL_IDLE, acts);
    var m', q' := Run(cfg, Idle(MICROSECOND), acts + more), Run(cfg, SQL_IDLE, acts + more);
    hide Run;
    var h := q.tokens.rows[id].hash;
    assert StoredUnderHash(m.tokens.byHash, q.tokens.rows, id);
    RevocationIsForGood(cfg, MICROSECOND, acts, more, h);
    assert StoredUnderId(m'.tokens.byHash, q'.tokens.rows, h);
  }
}
