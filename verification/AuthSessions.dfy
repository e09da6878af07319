/** Session families and session counts. */
module AuthSessions {
  import opened Wrappers
  import opened Domain
  import opened Tables
  import opened Auth
  import opened AuthRuns
  import opened AuthSafety

  // ---------------------------------------------------------------- Families

  /** The first token of the session each token belongs to. Register and Login start a session, Refresh
      continues the one of the token it was given. */
  ghost function Families(cfg: Config, es: seq<Event>): map<string, string> {
    if es == [] then map[]
    else
      var n := |es| - 1;
      NextFamilies(cfg, Families(cfg, es[..n]), es[n].call, Exec(cfg, EMPTY, es).tokens)
  }

  function NextFamilies(cfg: Config, fam: map<string, string>, call: Call, t': TokenTable): map<string, string> {
    map h | h in t' ::
      if h in fam then fam[h]
      else if call.Refresh? && cfg.hashToken(call.secret) in fam then fam[cfg.hashToken(call.secret)]
      else h
  }

  predicate Live(t: TokenTable, h: string) {
    h in t && t[h].revokedAt.None?
  }

  /** Every token has a family, named after a stored token. */
  predicate Rooted(t: TokenTable, fam: map<string, string>) {
    fam.Keys == t.Keys && fam.Values <= t.Keys
  }

  ghost predicate OneTip(t: TokenTable, fam: map<string, string>) {
    forall g, h :: Live(t, g) && Live(t, h) && g in fam && h in fam && fam[g] == fam[h] ==> g == h
  }

  lemma RevokingKeepsOneTip(t: TokenTable, t': TokenTable, fam: map<string, string>)
    requires OneTip(t, fam)
    requires forall h :: Live(t', h) ==> Live(t, h)
    ensures OneTip(t', fam)
  {
  }

  lemma InsertingKeepsOneTip(t: TokenTable, row: TokenRow, fam: map<string, string>, root: string)
    requires OneTip(t, fam) && fam.Keys == t.Keys && row.hash !in t
    requires forall h :: Live(t, h) ==> fam[h] != root
    ensures OneTip(t[row.hash := row], fam[row.hash := root])
  {
  }

  lemma EffectKeepsOneTip(cfg: Config, s: Store, fam: map<string, string>, e: Event, x: Effect)
    requires Rooted(s.tokens, fam) && OneTip(s.tokens, fam) && Possible(cfg, s, e, x)
    ensures var t' := Apply(s.tokens, x, e.now);
            Rooted(t', NextFamilies(cfg, fam, e.call, t')) && OneTip(t', NextFamilies(cfg, fam, e.call, t'))
  {
    hide OneTip;
    var t := s.tokens;
    var fam' := NextFamilies(cfg, fam, e.call, Apply(t, x, e.now));
    match x
    case Opened(row) =>
      assert fam' == fam[row.hash := row.hash];
      assert forall h :: Live(t, h) ==> fam[h] in fam.Values;
      InsertingKeepsOneTip(t, row, fam, row.hash);
    case Rotated(h, row) =>
      var closed := t[h := t[h].Revoke(e.now)];
      assert fam' == fam[row.hash := fam[h]];
      RevokingKeepsOneTip(t, closed, fam);
      NoOtherTip(t, closed, fam, h);
      InsertingKeepsOneTip(closed, row, fam, fam[h]);
    case _ =>
      assert fam' == fam;
      RevokingKeepsOneTip(t, Apply(t, x, e.now), fam);
  }

  lemma NoOtherTip(t: TokenTable, closed: TokenTable, fam: map<string, string>, h: string)
    requires OneTip(t, fam) && fam.Keys == t.Keys && Live(t, h)
    requires closed.Keys == t.Keys && forall g :: Live(closed, g) ==> g != h && Live(t, g)
    ensures forall g :: Live(closed, g) ==> fam[g] != fam[h]
  {
  }

  /** In every reachable state, faults or not, a session has at most one unrevoked token. */
  lemma {:induction false} OneLiveTokenPerFamily(cfg: Config, es: seq<Event>)
    requires cfg.ttl > 0 && Legal(cfg, EMPTY, es)
    ensures Rooted(Exec(cfg, EMPTY, es).tokens, Families(cfg, es))
    ensures OneTip(Exec(cfg, EMPTY, es).tokens, Families(cfg, es))
  {
    if es != [] {
      hide Do, OneTip, Rooted, Possible, Apply, PairMatches;
      var n := |es| - 1;
      PrefixIsLegal(cfg, EMPTY, es, n);
      OneLiveTokenPerFamily(cfg, es[..n]);
      RunKeepsInv(cfg, EMPTY, es[..n]);
      var x := DoHasEffect(cfg, Exec(cfg, EMPTY, es[..n]), es[n]);
      EffectKeepsOneTip(cfg, Exec(cfg, EMPTY, es[..n]), Families(cfg, es[..n]), es[n], x);
    }
  }

  // ---------------------------------------------------------------- Counting sessions

  lemma ActiveAfterOpening(t: TokenTable, row: TokenRow, userId: Id, now: Time)
    requires row.hash !in t && row.revokedAt.None? && now < row.expiresAt
    ensures ActiveCount(t[row.hash := row], userId, now) ==
            ActiveCount(t, userId, now) + if row.userId == userId then 1 else 0
  {
    var before, after := ActiveTokens(t, userId, now), ActiveTokens(t[row.hash := row], userId, now);
    if row.userId == userId {
      assert after == before + {row.hash};
    } else {
      assert after == before;
    }
  }

  lemma ActiveAfterClosing(t: TokenTable, h: string, userId: Id, now: Time)
    requires h in t && t[h].revokedAt.None?
    ensures ActiveCount(t[h := t[h].Revoke(now)], userId, now) ==
            ActiveCount(t, userId, now) - if t[h].userId == userId && now < t[h].expiresAt then 1 else 0
  {
    var before, after := ActiveTokens(t, userId, now), ActiveTokens(t[h := t[h].Revoke(now)], userId, now);
    if t[h].userId == userId && now < t[h].expiresAt {
      assert after == before - {h};
    } else {
      assert after == before;
    }
  }

  lemma ActiveAfterReuse(t: TokenTable, owner: Id, userId: Id, now: Time)
    ensures ActiveCount(RevokeAll(t, owner, now), userId, now) ==
            if userId == owner then 0 else ActiveCount(t, userId, now)
  {
    var after := ActiveTokens(RevokeAll(t, owner, now), userId, now);
    if userId == owner {
      assert after == {};
    } else {
      assert after == ActiveTokens(t, userId, now);
    }
  }

  /** A call whose outside calls all work and whose secret, if it mints one, is new. */
  ghost predicate Smooth(cfg: Config, s: Store, e: Event) {
    && e.faults == NO_FAULTS
    && (e.call.Register? || e.call.Login? || e.call.Refresh? ==>
          e.mint.secret.Some? && cfg.hashToken(e.mint.secret.value) !in s.tokens)
  }

  /** By how much one call changes the number of userId's valid sessions, read off the call and its
      reply. */
  ghost function Change(cfg: Config, s: Store, e: Event, userId: Id): int {
    match (e.call, Do(cfg, s, e).1)
    case (_, Authenticated(user, _)) => if user.id == userId then 1 else 0
    case (Logout(secret), LoggedOut) =>
      var h := cfg.hashToken(secret);
      if h in s.tokens && s.tokens[h].userId == userId && s.tokens[h].Validate(e.now).None? then -1 else 0
    case (Refresh(secret), Failed(TokenRevoked)) =>
      if cfg.hashToken(secret) in s.tokens && s.tokens[cfg.hashToken(secret)].userId == userId
      then 0 - ActiveCount(s.tokens, userId, e.now) as int else 0
    case _ => 0
  }

  /** +1 on Register and Login, 0 on Refresh, -1 on Logout of a valid token, down to 0 on reuse, and 0
      otherwise; no other user's count moves. Exactly one of these is the change. */
  lemma SessionsAreConserved(cfg: Config, s: Store, e: Event, userId: Id)
    requires cfg.ttl > 0 && Inv(s) && FreshId(s, e) && Smooth(cfg, s, e)
    ensures ActiveCount(Do(cfg, s, e).0.tokens, userId, e.now) ==
            ActiveCount(s.tokens, userId, e.now) + Change(cfg, s, e, userId)
  {
    match e.call
    case Refresh(secret) => RefreshConserves(cfg, s, e, secret, userId);
    case Logout(secret) => LogoutConserves(cfg, s, e, secret, userId);
    case Suspend(_) =>
    case _ => OpeningConserves(cfg, s, e, userId);
  }

  lemma OpeningConserves(cfg: Config, s: Store, e: Event, userId: Id)
    requires cfg.ttl > 0 && Inv(s) && FreshId(s, e) && Smooth(cfg, s, e) && (e.call.Register? || e.call.Login?)
    ensures ActiveCount(Do(cfg, s, e).0.tokens, userId, e.now) ==
            ActiveCount(s.tokens, userId, e.now) + Change(cfg, s, e, userId)
  {
    hide Do, ActiveCount;
    var x := DoHasEffect(cfg, s, e);
    if x.Opened? {
      ActiveAfterOpening(s.tokens, x.row, userId, e.now);
    }
  }

  lemma LogoutConserves(cfg: Config, s: Store, e: Event, secret: string, userId: Id)
    requires cfg.ttl > 0 && Inv(s) && Smooth(cfg, s, e) && e.call == Logout(secret)
    ensures ActiveCount(Do(cfg, s, e).0.tokens, userId, e.now) ==
            ActiveCount(s.tokens, userId, e.now) + Change(cfg, s, e, userId)
  {
    hide ActiveCount;
    var h := cfg.hashToken(secret);
    if h in s.tokens && s.tokens[h].revokedAt.None? {
      ActiveAfterClosing(s.tokens, h, userId, e.now);
    }
  }

  lemma RefreshConserves(cfg: Config, s: Store, e: Event, secret: string, userId: Id)
    requires cfg.ttl > 0 && Inv(s) && Smooth(cfg, s, e) && e.call == Refresh(secret)
    ensures ActiveCount(Do(cfg, s, e).0.tokens, userId, e.now) ==
            ActiveCount(s.tokens, userId, e.now) + Change(cfg, s, e, userId)
  {
    hide ActiveCount;
    var h := cfg.hashToken(secret);
    if h in s.tokens {
      var token := s.tokens[h];
      if token.revokedAt.Some? {
        ActiveAfterReuse(s.tokens, token.userId, userId, e.now);
      } else if token.Validate(e.now).None? {
        ActiveAfterClosing(s.tokens, h, userId, e.now);
        var row := TokenRow(e.mint.tokenId, token.userId, cfg.hashToken(e.mint.secret.value),
                            e.now, e.now + cfg.ttl, None);
        ActiveAfterOpening(s.tokens[h := token.Revoke(e.now)], row, userId, e.now);
      }
    }
  }
}
