/** What uninterrupted use cases guarantee and interleaved ones do not: schedules, without any fault, that
    exchange a token twice and so fork its session, move a revocation time, and open a session after a
    suspension. They exist from every state that has a live token of an active user. */
module StepWitnesses {
  import opened Wrappers
  import opened Domain
  import opened Stores
  import opened Auth
  import opened AuthSessions
  import opened Steps
  import opened StepSafety
  import opened StepLimits
  import opened StepSessions

  /** The token for secret may be used at now and its owner is active. */
  ghost predicate Ready(cfg: Config, s: Sys, secret: string, now: Time) {
    var h := cfg.hashToken(secret);
    && SysOk(cfg, s)
    && h in s.tokens.byHash && s.tokens.byHash[h].Validate(now).None?
    && s.users[s.tokens.byHash[h].userId].status == Active
  }

  /** A Refresh that has read its token, up to the write that revokes it. */
  lemma RefreshReads(cfg: Config, s: Sys, secret: string, now: Time, a: nat, mint: Mint)
    requires Ready(cfg, s, secret, now) && a !in s.calls
    ensures var token := s.tokens.byHash[cfg.hashToken(secret)];
            Run(cfg, s, [Begin(a, Refresh(secret), now, mint)] + [Go(a, mint), Go(a, mint)]) ==
            s.(calls := s.calls[a := InFlight(Refresh(secret), now,
                                              RefreshUpdate(token.Revoke(now), s.users[token.userId]), false)])
  {
    var s1 := Step(cfg, s, Begin(a, Refresh(secret), now, mint));
    RunFirst(cfg, s, Begin(a, Refresh(secret), now, mint), [Go(a, mint), Go(a, mint)]);
    RunTwo(cfg, s1, Go(a, mint), Go(a, mint));
    var s2 := Step(cfg, s1, Go(a, mint));
    assert s2.calls[a].pc == RefreshFindUser(s.tokens.byHash[cfg.hashToken(secret)]);
    var s3 := Step(cfg, s2, Go(a, mint));
    assert s3.calls == s.calls[a := s3.calls[a]];
  }

  lemma BothUpdate(cfg: Config, s: Sys, a: nat, b: nat, mint: Mint)
    requires SysOk(cfg, s) && a != b && a in s.calls && b in s.calls
    requires s.calls[a].pc.RefreshUpdate? && s.calls[b].pc.RefreshUpdate?
    ensures var c, d, s' := s.calls[a], s.calls[b], Run(cfg, s, [Go(a, mint), Go(b, mint)]);
            && s'.tokens.Mem? && TableOf(s').Keys == TableOf(s).Keys
            && s'.calls == s.calls[a := c.(pc := SessionCreate(c.pc.user), exchanged := true)]
                                  [b := d.(pc := SessionCreate(d.pc.user), exchanged := true)]
  {
    RunTwo(cfg, s, Go(a, mint), Go(b, mint));
    Exchanges(cfg, s, a, mint);
    StepIsSound(cfg, s, Go(a, mint));
    Exchanges(cfg, Step(cfg, s, Go(a, mint)), b, mint);
    CallIsOk(cfg, s, a);
    CallIsOk(cfg, s, b);
  }

  predicate Fresh(cfg: Config, s: Sys, mint: Mint) {
    && mint.secret.Some? && cfg.hashToken(mint.secret.value) !in TableOf(s)
    && IdUnused(TableOf(s), mint.tokenId)
  }

  function NewRow(cfg: Config, c: InFlight, mint: Mint): TokenRow
    requires c.pc.SessionCreate? && mint.secret.Some?
  {
    TokenRow(mint.tokenId, c.pc.user.id, cfg.hashToken(mint.secret.value), c.now, c.now + cfg.ttl, None)
  }

  function NewPair(cfg: Config, c: InFlight, mint: Mint): TokenPair
    requires c.pc.SessionCreate? && mint.secret.Some?
  {
    var (access, accessExpiresAt) := cfg.issue(c.pc.user, c.now);
    TokenPair(access, accessExpiresAt, mint.secret.value, c.now + cfg.ttl)
  }

  /** startSession of a Refresh, up to the reply: the new token joins the family of the one given. */
  lemma SessionOpens(cfg: Config, s: Sys, fam: map<string, string>, a: nat, mint: Mint)
    requires cfg.ttl > 0 && s.tokens.Mem? && fam.Keys == TableOf(s).Keys && Fresh(cfg, s, mint)
    requires a in s.calls && s.calls[a].pc.SessionCreate? && s.calls[a].call.Refresh?
    requires cfg.hashToken(s.calls[a].call.secret) in fam
    ensures var c, row := s.calls[a], NewRow(cfg, s.calls[a], mint);
            && Run(cfg, s, [Go(a, mint), Go(a, mint)]) ==
               Sys(s.users, Mem(s.tokens.byHash[row.hash := row.Kept(s.tokens.tick)], s.tokens.tick),
                   s.calls[a := c.(pc := Done(Refreshed(NewPair(cfg, c, mint))))])
            && Lineage(cfg, s, fam, [Go(a, mint), Go(a, mint)]) == fam[row.hash := fam[cfg.hashToken(c.call.secret)]]
  {
    var go, row := Go(a, mint), NewRow(cfg, s.calls[a], mint);
    CreateInserts(cfg, s, a, mint);
    RunTwo(cfg, s, go, go);
    RunOne(cfg, s, go);
    hide Next;
    var s1 := Step(cfg, s, go);
    IssueReplies(cfg, s1, a, mint);
    LineageOne(cfg, s, fam, go);
    LineageOne(cfg, s1, Lineage(cfg, s, fam, [go]), go);
    assert [go, go] == [go] + [go];
    LineageSplits(cfg, s, fam, [go], [go]);
  }

  lemma IssueReplies(cfg: Config, s: Sys, a: nat, mint: Mint)
    requires a in s.calls && s.calls[a].pc.SessionIssue?
    ensures var c := s.calls[a];
            var (access, accessExpiresAt) := cfg.issue(c.pc.user, c.now);
            var pair := TokenPair(access, accessExpiresAt, c.pc.secret, c.pc.row.expiresAt);
            Step(cfg, s, Go(a, mint)) ==
            s.(calls := s.calls[a := c.(pc := Done(SessionReply(c.call, c.pc.user, pair)))])
  {
  }

  lemma LineageOne(cfg: Config, s: Sys, fam: map<string, string>, a: Action)
    ensures Lineage(cfg, s, fam, [a]) == NextLineage(cfg, s, fam, a)
  {
    assert [a][..0] == [];
  }

  /** Both calls have a pair, and both rows are live in the family of the token they were given. */
  ghost predicate Forked(cfg: Config, s: Sys, fam: map<string, string>, given: string,
                         a: nat, b: nat, g: string, h: string) {
    && a in s.calls && s.calls[a].pc.Done? && s.calls[a].pc.reply.Refreshed?
    && cfg.hashToken(s.calls[a].pc.reply.pair.refreshToken) == g
    && b in s.calls && s.calls[b].pc.Done? && s.calls[b].pc.reply.Refreshed?
    && cfg.hashToken(s.calls[b].pc.reply.pair.refreshToken) == h
    && {a, b} <= Exchangers(cfg, s, given)
    && g != h && Live(TableOf(s), g) && Live(TableOf(s), h)
    && g in fam && h in fam && given in fam && fam[g] == fam[h] == fam[given]
  }

  lemma ForkedHasTwoTips(cfg: Config, s: Sys, fam: map<string, string>, given: string,
                         a: nat, b: nat, g: string, h: string)
    requires Forked(cfg, s, fam, given, a, b, g, h)
    ensures !OneTip(TableOf(s), fam)
  {
  }

  ghost predicate BothExchanged(cfg: Config, s: Sys, given: string, a: nat, b: nat) {
    && s.tokens.Mem? && given in TableOf(s) && {a, b} <= Exchangers(cfg, s, given)
    && s.calls[a].pc.SessionCreate? && s.calls[b].pc.SessionCreate?
  }

  /** Unused and distinct. */
  predicate Apart(cfg: Config, s: Sys, ma: Mint, mb: Mint) {
    && Fresh(cfg, s, ma) && Fresh(cfg, s, mb) && ma.tokenId != mb.tokenId
    && cfg.hashToken(ma.secret.value) != cfg.hashToken(mb.secret.value)
  }

  lemma StayApart(cfg: Config, s: Sys, acts: seq<Action>, ma: Mint, mb: Mint)
    requires SysOk(cfg, s) && Apart(cfg, s, ma, mb) && TableOf(Run(cfg, s, acts)).Keys == TableOf(s).Keys
    ensures Apart(cfg, Run(cfg, s, acts), ma, mb)
  {
    RunIsSound(cfg, s, acts);
    hide Run;
  }

  lemma BothOpen(cfg: Config, s: Sys, fam: map<string, string>, given: string, a: nat, b: nat, ma: Mint, mb: Mint)
    requires cfg.ttl > 0 && fam.Keys == TableOf(s).Keys && BothExchanged(cfg, s, given, a, b)
    requires a != b && Apart(cfg, s, ma, mb)
    ensures var acts := [Go(a, ma), Go(a, ma)] + [Go(b, mb), Go(b, mb)];
            Forked(cfg, Run(cfg, s, acts), Lineage(cfg, s, fam, acts), given, a, b,
                   cfg.hashToken(ma.secret.value), cfg.hashToken(mb.secret.value))
  {
    hide Run, Lineage;
    var x, y := [Go(a, ma), Go(a, ma)], [Go(b, mb), Go(b, mb)];
    SessionOpens(cfg, s, fam, a, ma);
    var s1, fam1 := Run(cfg, s, x), Lineage(cfg, s, fam, x);
    SessionOpens(cfg, s1, fam1, b, mb);
    RunSplits(cfg, s, x, y);
    LineageSplits(cfg, s, fam, x, y);
  }

  /** A call that has read the token and not failed goes on to the write. */
  lemma ReachesUpdate(cfg: Config, s: Sys, a: nat, given: string) returns (acts: seq<Action>)
    requires SysOk(cfg, s) && a in Between(cfg, s, given) && a in Readers(cfg, s, given)
    ensures var s' := Run(cfg, s, acts);
            && SysOk(cfg, s') && s' == s.(calls := s'.calls) && a in s'.calls && s'.calls == s.calls[a := s'.calls[a]]
            && s'.calls[a].pc.RefreshUpdate? && IsRefreshOf(cfg, s'.calls[a], given)
  {
    CallIsOk(cfg, s, a);
    if s.calls[a].pc.RefreshUpdate? {
      acts := [];
    } else {
      acts := [Go(a, NOTHING)];
      RunOne(cfg, s, Go(a, NOTHING));
      FindsItsUser(cfg, s, a);
      StepIsSound(cfg, s, Go(a, NOTHING));
    }
  }

  lemma BothReachUpdate(cfg: Config, s: Sys, a: nat, b: nat, given: string) returns (acts: seq<Action>)
    requires SysOk(cfg, s) && a != b && {a, b} <= Between(cfg, s, given) * Readers(cfg, s, given)
    ensures var s' := Run(cfg, s, acts);
            && SysOk(cfg, s') && s' == s.(calls := s'.calls)
            && a in s'.calls && s'.calls[a].pc.RefreshUpdate? && IsRefreshOf(cfg, s'.calls[a], given)
            && b in s'.calls && s'.calls[b].pc.RefreshUpdate? && IsRefreshOf(cfg, s'.calls[b], given)
  {
    var x := ReachesUpdate(cfg, s, a, given);
    hide Run, SysOk;
    var y := ReachesUpdate(cfg, Run(cfg, s, x), b, given);
    acts := x + y;
    RunSplits(cfg, s, x, y);
  }

  /** Two Refresh calls that both read their token before either revokes it can both exchange it. */
  lemma OverlappingRefreshesBothExchange(cfg: Config, s: Sys, a: nat, b: nat, given: string) returns (acts: seq<Action>)
    requires SysOk(cfg, s) && a != b && {a, b} <= Between(cfg, s, given) * Readers(cfg, s, given)
    ensures BothExchanged(cfg, Run(cfg, s, acts), given, a, b) && TableOf(Run(cfg, s, acts)).Keys == TableOf(s).Keys
  {
    CallIsOk(cfg, s, a);
    assert given in TableOf(s);
    hide Run, Step, SysOk, Grows, Readers, Between, CallOk;
    var reach := BothReachUpdate(cfg, s, a, b, given);
    BothUpdate(cfg, Run(cfg, s, reach), a, b, NOTHING);
    acts := reach + [Go(a, NOTHING), Go(b, NOTHING)];
    RunSplits(cfg, s, reach, [Go(a, NOTHING), Go(b, NOTHING)]);
  }

  /** Whenever two Refresh calls are between reading and revoking one token, and neither is about to find
      its user suspended, both can return a new token of the same session. So the condition of
      OneLiveTokenPerFamilyWithoutOverlap cannot be dropped. */
  lemma OverlappingRefreshesForkTheSession(cfg: Config, s: Sys, fam: map<string, string>, given: string,
                                           a: nat, b: nat, ma: Mint, mb: Mint)
    requires cfg.ttl > 0 && SysOk(cfg, s) && a != b && {a, b} <= Between(cfg, s, given) * Readers(cfg, s, given)
    requires fam.Keys == TableOf(s).Keys && Apart(cfg, s, ma, mb)
    ensures exists acts ::
              && Forked(cfg, Run(cfg, s, acts), Lineage(cfg, s, fam, acts), given, a, b,
                        cfg.hashToken(ma.secret.value), cfg.hashToken(mb.secret.value))
              && !OneTip(TableOf(Run(cfg, s, acts)), Lineage(cfg, s, fam, acts))
  {
    hide Run, Lineage, Forked, OneTip, BothExchanged, TableOf, SysOk, IdUnused;
    var first := OverlappingRefreshesBothExchange(cfg, s, a, b, given);
    var mid := Run(cfg, s, first);
    FamiliesAreForGood(cfg, s, fam, first);
    assert Lineage(cfg, s, fam, first) == fam;
    StayApart(cfg, s, first, ma, mb);
    BothOpen(cfg, mid, fam, given, a, b, ma, mb);
    var opens := [Go(a, ma), Go(a, ma)] + [Go(b, mb), Go(b, mb)];
    RunSplits(cfg, s, first, opens);
    LineageSplits(cfg, s, fam, first, opens);
    ForkedHasTwoTips(cfg, Run(cfg, s, first + opens), Lineage(cfg, s, fam, first + opens), given, a, b,
                     cfg.hashToken(ma.secret.value), cfg.hashToken(mb.secret.value));
  }

  lemma BothRead(cfg: Config, s: Sys, secret: string, now: Time, a: nat, b: nat, mint: Mint) returns (acts: seq<Action>)
    requires Ready(cfg, s, secret, now) && a !in s.calls && b !in s.calls && a != b
    ensures var token := s.tokens.byHash[cfg.hashToken(secret)];
            var c := InFlight(Refresh(secret), now, RefreshUpdate(token.Revoke(now), s.users[token.userId]), false);
            Run(cfg, s, acts) == s.(calls := s.calls[a := c][b := c])
  {
    hide Run, Step;
    var readA := [Begin(a, Refresh(secret), now, mint)] + [Go(a, mint), Go(a, mint)];
    var readB := [Begin(b, Refresh(secret), now, mint)] + [Go(b, mint), Go(b, mint)];
    RefreshReads(cfg, s, secret, now, a, mint);
    RunIsSound(cfg, s, readA);
    RefreshReads(cfg, Run(cfg, s, readA), secret, now, b, mint);
    acts := readA + readB;
    RunSplits(cfg, s, readA, readB);
  }

  /** So both hold a live copy. */
  lemma BothHoldACopy(cfg: Config, s: Sys, secret: string, now: Time, a: nat, b: nat, mint: Mint)
    returns (acts: seq<Action>)
    requires Ready(cfg, s, secret, now) && a !in s.calls && b !in s.calls && a != b
    ensures var mid, given := Run(cfg, s, acts), cfg.hashToken(secret);
            SysOk(cfg, mid) && mid.tokens == s.tokens && {a, b} <= Between(cfg, mid, given) * Readers(cfg, mid, given)
  {
    acts := BothRead(cfg, s, secret, now, a, b, mint);
    RunIsSound(cfg, s, acts);
    hide Run, SysOk, Grows;
  }

  /** And from any state with a usable token of an active user, two calls can get there. */
  lemma UsableTokenCanFork(cfg: Config, s: Sys, fam: map<string, string>, secret: string, now: Time,
                           a: nat, b: nat, ma: Mint, mb: Mint)
    requires cfg.ttl > 0 && Ready(cfg, s, secret, now) && a !in s.calls && b !in s.calls && a != b
    requires fam.Keys == TableOf(s).Keys && Apart(cfg, s, ma, mb)
    ensures exists acts :: !OneTip(TableOf(Run(cfg, s, acts)), Lineage(cfg, s, fam, acts))
  {
    hide Run, Lineage, OneTip, SysOk, Forked, Between, Readers, Apart;
    SoundToStart(cfg, s);
    var read := BothHoldACopy(cfg, s, secret, now, a, b, ma);
    FamiliesAreForGood(cfg, s, fam, read);
    StayApart(cfg, s, read, ma, mb);
    var mid := Run(cfg, s, read);
    assert Lineage(cfg, s, fam, read) == fam;
    hide Ready;
    OverlappingRefreshesForkTheSession(cfg, mid, fam, cfg.hashToken(secret), a, b, ma, mb);
    var fork :| !OneTip(TableOf(Run(cfg, mid, fork)), Lineage(cfg, mid, fam, fork));
    RunSplits(cfg, s, read, fork);
    LineageSplits(cfg, s, fam, read, fork);
  }

  /** A token that may be used is stored under its hash, for a stored user. */
  lemma UsableTokenIsStored(cfg: Config, s: Sys, secret: string, now: Time)
    requires Ready(cfg, s, secret, now)
    ensures var t, h := TableOf(s), cfg.hashToken(secret);
            && s.tokens.Mem? && h in t && t[h].hash == h
            && t[h].userId in s.users && s.users[t[h].userId].id == t[h].userId
  {
  }

  /** A Logout that has read its token, up to the write that revokes it. */
  lemma LogoutReads(cfg: Config, s: Sys, secret: string, now: Time, a: nat, mint: Mint)
    requires SysOk(cfg, s) && a !in s.calls
    requires var h := cfg.hashToken(secret); h in s.tokens.byHash && s.tokens.byHash[h].revokedAt.None?
    ensures var token := s.tokens.byHash[cfg.hashToken(secret)];
            Run(cfg, s, [Begin(a, Logout(secret), now, mint), Go(a, mint)]) ==
            s.(calls := s.calls[a := InFlight(Logout(secret), now, LogoutUpdate(token.Revoke(now)), false)])
  {
    RunTwo(cfg, s, Begin(a, Logout(secret), now, mint), Go(a, mint));
  }

  lemma LogoutWrites(cfg: Config, s: Sys, a: nat, mint: Mint)
    requires s.tokens.Mem? && a in s.calls && s.calls[a].pc.LogoutUpdate? && s.calls[a].pc.token.hash in s.tokens.byHash
    ensures var c, tick := s.calls[a], s.tokens.tick;
            Run(cfg, s, [Go(a, mint)]) ==
            Sys(s.users, Mem(s.tokens.byHash[c.pc.token.hash := c.pc.token.RevocationKept(tick)], tick),
                s.calls[a := c.(pc := Done(LoggedOut))])
  {
  }

  /** Two overlapping Logout calls: the revocation time first stored is replaced by the later write. */
  lemma FirstRevocationTimeCanBeLost(cfg: Config, s: Sys, secret: string, first: Time, second: Time,
                                     a: nat, b: nat, mint: Mint)
    requires SysOk(cfg, s) && a !in s.calls && b !in s.calls && a != b
    requires var h := cfg.hashToken(secret); h in s.tokens.byHash && s.tokens.byHash[h].revokedAt.None?
    ensures exists acts, more ::
              var t, t' := TableOf(Run(cfg, s, acts)), TableOf(Run(cfg, s, acts + more));
              var h := cfg.hashToken(secret);
              h in t && t[h].revokedAt == StoredTime(s, first) && h in t' && t'[h].revokedAt == StoredTime(s, second)
  {
    hide Run;
    var readA := [Begin(a, Logout(secret), first, mint), Go(a, mint)];
    var readB := [Begin(b, Logout(secret), second, mint), Go(b, mint)];
    LogoutReads(cfg, s, secret, first, a, mint);
    RunIsSound(cfg, s, readA);
    LogoutReads(cfg, Run(cfg, s, readA), secret, second, b, mint);
    RunSplits(cfg, s, readA, readB);
    LogoutWrites(cfg, Run(cfg, s, readA + readB), a, mint);
    RunSplits(cfg, s, readA + readB, [Go(a, mint)]);
    var acts := readA + readB + [Go(a, mint)];
    LogoutWrites(cfg, Run(cfg, s, acts), b, mint);
    RunSplits(cfg, s, acts, [Go(b, mint)]);
    hide SysOk;
    var h := cfg.hashToken(secret);
    assert TableOf(Run(cfg, s, acts))[h].revokedAt == StoredTime(s, first);
    assert TableOf(Run(cfg, s, acts + [Go(b, mint)]))[h].revokedAt == StoredTime(s, second);
  }

  lemma RefreshInserts(cfg: Config, s: Sys, a: nat, mint: Mint)
    requires cfg.ttl > 0 && SysOk(cfg, s) && a in s.calls && s.calls[a].pc.RefreshUpdate? && Fresh(cfg, s, mint)
    ensures var c, h := s.calls[a], cfg.hashToken(mint.secret.value);
            var t' := TableOf(Run(cfg, s, [Go(a, mint), Go(a, mint)]));
            && h in t'
            && t'[h] == TokenRow(mint.tokenId, c.pc.user.id, h, c.now, c.now + cfg.ttl, None).Kept(s.tokens.tick)
  {
    CallIsOk(cfg, s, a);
    RunTwo(cfg, s, Go(a, mint), Go(a, mint));
    Exchanges(cfg, s, a, mint);
    hide Step, Run;
    CreateInserts(cfg, Step(cfg, s, Go(a, mint)), a, mint);
  }

  lemma SuspendedMeanwhile(cfg: Config, s: Sys, secret: string, now: Time, a: nat, b: nat, mint: Mint)
    returns (acts: seq<Action>)
    requires Ready(cfg, s, secret, now) && a !in s.calls && b !in s.calls && a != b
    ensures var token := s.tokens.byHash[cfg.hashToken(secret)];
            var user := s.users[token.userId];
            Run(cfg, s, acts) ==
            Sys(s.users[token.userId := user.Suspend(now)], s.tokens,
                s.calls[a := InFlight(Refresh(secret), now, RefreshUpdate(token.Revoke(now), user), false)]
                       [b := InFlight(Call.Suspend(token.userId), now, Done(SuspensionStored), false)])
  {
    hide Run, Step;
    var token := s.tokens.byHash[cfg.hashToken(secret)];
    var readA := [Begin(a, Refresh(secret), now, mint)] + [Go(a, mint), Go(a, mint)];
    var suspendB := [Begin(b, Call.Suspend(token.userId), now, mint)] + [Go(b, mint), Go(b, mint)];
    RefreshReads(cfg, s, secret, now, a, mint);
    RunIsSound(cfg, s, readA);
    SuspendRuns(cfg, Run(cfg, s, readA), token.userId, now, b, mint);
    acts := readA + suspendB;
    RunSplits(cfg, s, readA, suspendB);
  }

  /** A Refresh that read its user before the suspension was stored still opens a session after it. */
  lemma OpenCallOutlivesSuspension(cfg: Config, s: Sys, secret: string, now: Time, a: nat, b: nat, mint: Mint)
    requires cfg.ttl > 0 && Ready(cfg, s, secret, now) && a !in s.calls && b !in s.calls && a != b
    requires Fresh(cfg, s, mint)
    ensures exists acts, more ::
              var userId := s.tokens.byHash[cfg.hashToken(secret)].userId;
              var mid, end := Run(cfg, s, acts), Run(cfg, s, acts + more);
              var h := cfg.hashToken(mint.secret.value);
              && userId in mid.users && mid.users[userId].status == Suspended
              && h !in TableOf(mid)
              && h in TableOf(end) && TableOf(end)[h].userId == userId && TableOf(end)[h].revokedAt.None?
  {
    UsableTokenIsStored(cfg, s, secret, now);
    var acts := SuspendedMeanwhile(cfg, s, secret, now, a, b, mint);
    RunIsSound(cfg, s, acts);
    hide Run, Step, SysOk, Grows, Ready;
    RefreshInserts(cfg, Run(cfg, s, acts), a, mint);
    RunSplits(cfg, s, acts, [Go(a, mint), Go(a, mint)]);
  }

  lemma SuspendRuns(cfg: Config, s: Sys, userId: Id, now: Time, b: nat, mint: Mint)
    requires SysOk(cfg, s) && b !in s.calls && userId in s.users
    ensures Run(cfg, s, [Begin(b, Call.Suspend(userId), now, mint)] + [Go(b, mint), Go(b, mint)]) ==
            Sys(s.users[userId := s.users[userId].Suspend(now)], s.tokens,
                s.calls[b := InFlight(Call.Suspend(userId), now, Done(SuspensionStored), false)])
  {
    hide Run;
    var x := Begin(b, Call.Suspend(userId), now, mint);
    RunFirst(cfg, s, x, [Go(b, mint), Go(b, mint)]);
    RunTwo(cfg, Step(cfg, s, x), Go(b, mint), Go(b, mint));
    var s2 := Step(cfg, Step(cfg, s, x), Go(b, mint));
    assert s2 == s.(calls := s.calls[b := InFlight(Call.Suspend(userId), now,
                                                   SuspendUpdate(s.users[userId].Suspend(now)), false)]);
    SuspendWrites(cfg, s2, b, mint);
  }

  lemma SuspendWrites(cfg: Config, s: Sys, b: nat, mint: Mint)
    requires b in s.calls && s.calls[b].pc.SuspendUpdate? && s.calls[b].pc.user.id in s.users
    ensures var user := s.calls[b].pc.user;
            Step(cfg, s, Go(b, mint)) ==
            Sys(s.users[user.id := user], s.tokens, s.calls[b := s.calls[b].(pc := Done(SuspensionStored))])
  {
  }
}
