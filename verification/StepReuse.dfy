/** What survives a revocation in calls already under way: the successors that revoked tokens still get,
    and so the sessions that outlive a reuse response. */
module StepReuse {
  import opened Wrappers
  import opened Sets
  import opened Domain
  import opened Tables
  import opened Auth
  import opened Steps
  import opened StepSafety
  import opened StepLimits

  // ---------------------------------------------------------------- Successors of revoked tokens

  /** A Refresh of one of these tokens that has read it and not failed, and has its row to insert. */
  predicate WillSucceed(cfg: Config, users: UserTable, c: InFlight, given: set<string>) {
    && c.call.Refresh? && cfg.hashToken(c.call.secret) in given
    && (c.pc.RefreshUpdate? || c.pc.SessionCreate?
        || (c.pc.RefreshFindUser? && !SuspendedIn(users, c.pc.token.userId)))
  }

  function Survivors(cfg: Config, s: Sys, given: set<string>): set<nat> {
    set cid | cid in s.calls && WillSucceed(cfg, s.users, s.calls[cid], given)
  }

  /** The rows inserted by one action, if it is one of a Refresh of these tokens. */
  ghost function Succession(cfg: Config, s: Sys, a: Action, given: set<string>): set<string> {
    if a.Advance? && a.cid in s.calls && s.calls[a.cid].call.Refresh?
       && cfg.hashToken(s.calls[a.cid].call.secret) in given
    then TableOf(Step(cfg, s, a)).Keys - TableOf(s).Keys
    else {}
  }

  /** The rows inserted during acts by Refresh calls of these tokens. */
  ghost function Successors(cfg: Config, s: Sys, acts: seq<Action>, given: set<string>): set<string> {
    if acts == [] then {}
    else
      var n := |acts| - 1;
      Successors(cfg, s, acts[..n], given) + Succession(cfg, Run(cfg, s, acts[..n]), acts[n], given)
  }

  ghost predicate AllRevoked(s: Sys, given: set<string>) {
    forall h :: h in given ==> RevokedIn(TableOf(s), h)
  }

  lemma NobodyStartsSucceeding(cfg: Config, s: Sys, cid: nat, f: Fault, mint: Mint, given: set<string>)
    requires SysOk(cfg, s) && AllRevoked(s, given) && cid in s.calls
    ensures var (users', _, c') := Next(cfg, s.users, s.tokens, s.calls[cid], f, mint);
            WillSucceed(cfg, users', c', given) ==> WillSucceed(cfg, s.users, s.calls[cid], given)
  {
    hide FindUserByEmail, NewRefreshToken, Create, Update, RevokeAllFor, CreateUser, SysOk;
    TablesAreKeyed(cfg, s);
    CallIsOk(cfg, s, cid);
  }

  lemma StaysUnsuccessful(cfg: Config, s: Sys, s': Sys, c: InFlight, given: set<string>)
    requires s.tokens.Mem? && s'.tokens.Mem? && Grows(s.users, s.tokens.byHash, s'.users, s'.tokens.byHash)
    requires WillSucceed(cfg, s'.users, c, given)
    ensures WillSucceed(cfg, s.users, c, given)
  {
  }

  lemma StartsUnsuccessful(cfg: Config, users: UserTable, call: Call, now: Time, mint: Mint, given: set<string>)
    ensures !WillSucceed(cfg, users, Start(cfg, call, now, mint), given)
  {
  }

  lemma SurvivorsShrink(cfg: Config, s: Sys, a: Action, given: set<string>)
    requires SysOk(cfg, s) && AllRevoked(s, given)
    ensures Survivors(cfg, Step(cfg, s, a), given) <= Survivors(cfg, s, given)
  {
    hide SysOk, Next, WillSucceed, Grows, Start, AllRevoked;
    var s' := Step(cfg, s, a);
    StepIsSound(cfg, s, a);
    SoundToStart(cfg, s);
    SoundToStart(cfg, s');
    forall cid | cid in Survivors(cfg, s', given) ensures cid in Survivors(cfg, s, given) {
      if cid !in s.calls {
        StartsUnsuccessful(cfg, s'.users, a.call, a.now, a.mint, given);
      } else if a.Advance? && a.cid == cid {
        NobodyStartsSucceeding(cfg, s, cid, a.fault, a.mint, given);
      } else {
        StaysUnsuccessful(cfg, s, s', s.calls[cid], given);
      }
    }
  }

  /** An inserted row costs the call that inserts it its place among the survivors. */
  lemma SuccessionCosts(cfg: Config, s: Sys, a: Action, given: set<string>)
    requires SysOk(cfg, s) && AllRevoked(s, given)
    ensures |Succession(cfg, s, a, given)| + |Survivors(cfg, Step(cfg, s, a), given)| <= |Survivors(cfg, s, given)|
  {
    SurvivorsShrink(cfg, s, a, given);
    SubsetIsSmaller(Survivors(cfg, Step(cfg, s, a), given), Survivors(cfg, s, given));
    if Succession(cfg, s, a, given) != {} {
      var row := OnlyCreateInserts(cfg, s, a);
      assert Succession(cfg, s, a, given) == {row.hash};
      NoLongerCreating(cfg, s, a, given);
      hide Step, SysOk;
      SubsetIsSmaller(Survivors(cfg, Step(cfg, s, a), given), Survivors(cfg, s, given) - {a.cid});
    }
  }

  lemma NoLongerCreating(cfg: Config, s: Sys, a: Action, given: set<string>)
    requires SysOk(cfg, s) && a.Advance? && a.cid in s.calls && s.calls[a.cid].pc.SessionCreate?
    requires TableOf(Step(cfg, s, a)) != TableOf(s)
    ensures a.cid !in Survivors(cfg, Step(cfg, s, a), given)
  {
  }

  lemma StayRevoked(cfg: Config, s: Sys, acts: seq<Action>, given: set<string>)
    requires SysOk(cfg, s) && AllRevoked(s, given)
    ensures AllRevoked(Run(cfg, s, acts), given)
  {
    RunIsSound(cfg, s, acts);
    hide Run;
  }

  /** The rows that Refresh calls of revoked tokens insert later, and such calls as may still insert one,
      are together no more than those calls were. */
  lemma {:induction false} SurvivorsBoundSuccessors(cfg: Config, s: Sys, acts: seq<Action>, given: set<string>)
    requires SysOk(cfg, s) && AllRevoked(s, given)
    ensures |Successors(cfg, s, acts, given)| + |Survivors(cfg, Run(cfg, s, acts), given)| <= |Survivors(cfg, s, given)|
  {
    if acts != [] {
      hide Step, SysOk, Survivors, Succession, AllRevoked;
      var n := |acts| - 1;
      var mid := Run(cfg, s, acts[..n]);
      SurvivorsBoundSuccessors(cfg, s, acts[..n], given);
      RunIsSound(cfg, s, acts[..n]);
      StayRevoked(cfg, s, acts[..n], given);
      SuccessionCosts(cfg, mid, acts[n], given);
      UnionIsSmaller(Successors(cfg, s, acts[..n], given), Succession(cfg, mid, acts[n], given));
    }
  }

  lemma UnionIsSmaller(a: set<string>, b: set<string>)
    ensures |a + b| <= |a| + |b|
  {
    assert a + b == a + (b - a);
    SubsetIsSmaller(b - a, b);
  }

  lemma {:induction false} SuccessorsOfRun(cfg: Config, s: Sys, acts: seq<Action>, given: set<string>, a: Action)
    ensures Successors(cfg, s, acts + [a], given) ==
            Successors(cfg, s, acts, given) + Succession(cfg, Run(cfg, s, acts), a, given)
  {
    assert (acts + [a])[..|acts + [a]| - 1] == acts;
  }

  /** A survivor goes on to the insertion. */
  lemma SurvivorReachesCreate(cfg: Config, s: Sys, cid: nat, given: set<string>) returns (acts: seq<Action>)
    requires SysOk(cfg, s) && cid in Survivors(cfg, s, given)
    ensures var s' := Run(cfg, s, acts);
            && SysOk(cfg, s') && TableOf(s').Keys == TableOf(s).Keys
            && cid in s'.calls && s'.calls[cid].call == s.calls[cid].call && s'.calls[cid].pc.SessionCreate?
  {
    CallIsOk(cfg, s, cid);
    var go := Go(cid, NOTHING);
    if s.calls[cid].pc.SessionCreate? {
      acts := [];
    } else if s.calls[cid].pc.RefreshUpdate? {
      acts := [go];
      RunOne(cfg, s, go);
      Exchanges(cfg, s, cid, NOTHING);
    } else {
      acts := [go, go];
      RunTwo(cfg, s, go, go);
      FindsItsUser(cfg, s, cid);
      StepIsSound(cfg, s, go);
      Exchanges(cfg, Step(cfg, s, go), cid, NOTHING);
    }
    RunIsSound(cfg, s, acts);
  }

  lemma SurvivorSucceeds(cfg: Config, s: Sys, cid: nat, given: set<string>, secret: string) returns (acts: seq<Action>)
    requires cfg.ttl > 0 && SysOk(cfg, s) && cid in Survivors(cfg, s, given) && cfg.hashToken(secret) !in TableOf(s)
    ensures cfg.hashToken(secret) in Successors(cfg, s, acts, given)
  {
    var first := SurvivorReachesCreate(cfg, s, cid, given);
    hide Run, SysOk;
    var mid := Run(cfg, s, first);
    SoundToStart(cfg, mid);
    var tokenId := UnusedIdExists(TableOf(mid));
    var go := Go(cid, Mint(0, None, tokenId, Some(secret)));
    CreateInserts(cfg, mid, cid, go.mint);
    acts := first + [go];
    SuccessorsOfRun(cfg, s, first, given, go);
  }

  /** Revoked tokens get no successor, whatever follows, if and only if no Refresh of them has read them
      and not failed, or no hash is left for any row. */
  lemma NoSuccessorWhen(cfg: Config, s: Sys, given: set<string>)
    requires cfg.ttl > 0 && SysOk(cfg, s) && AllRevoked(s, given)
    ensures (forall acts :: Successors(cfg, s, acts, given) == {}) <==>
            Survivors(cfg, s, given) == {} || HashesUsedUp(cfg, TableOf(s))
  {
    if cid :| cid in Survivors(cfg, s, given) && !HashesUsedUp(cfg, TableOf(s)) {
      var secret :| cfg.hashToken(secret) !in TableOf(s);
      var acts := SurvivorSucceeds(cfg, s, cid, given, secret);
    } else {
      forall acts ensures Successors(cfg, s, acts, given) == {} {
        if Survivors(cfg, s, given) == {} {
          SurvivorsBoundSuccessors(cfg, s, acts, given);
        } else {
          NoHashNoSuccessor(cfg, s, acts, given);
        }
      }
    }
  }

  lemma {:induction false} NoHashNoSuccessor(cfg: Config, s: Sys, acts: seq<Action>, given: set<string>)
    requires SysOk(cfg, s) && HashesUsedUp(cfg, TableOf(s))
    ensures Successors(cfg, s, acts, given) == {}
  {
    if acts != [] {
      var n := |acts| - 1;
      NoHashNoSuccessor(cfg, s, acts[..n], given);
      NothingFitsAnyMore(cfg, s, acts[..n]);
      NothingFitsAnyMore(cfg, s, acts);
      hide Step, SysOk;
    }
  }

  // ---------------------------------------------------------------- The reuse response

  /** What a Refresh does once it has read its token: an unknown one and an expired one end the call, a
      revoked one is answered by revoking its owner's sessions, a usable one is taken further. */
  lemma FindDecides(cfg: Config, s: Sys, cid: nat, mint: Mint)
    requires SysOk(cfg, s) && cid in s.calls && s.calls[cid].pc.RefreshFind?
    ensures var c, t := s.calls[cid], TableOf(s);
            var h := c.pc.hash;
            Step(cfg, s, Go(cid, mint)) ==
            s.(calls := s.calls[cid := c.(pc :=
                 if h !in t then Done(Failed(TokenNotFound))
                 else if t[h].revokedAt.Some? then RefreshRevokeAll(t[h])
                 else if t[h].expiresAt <= c.now then Done(Failed(TokenExpired))
                 else RefreshFindUser(t[h]))])
  {
  }

  ghost predicate LeavesAlone(acts: seq<Action>, cid: nat) {
    forall i :: 0 <= i < |acts| && acts[i].Advance? ==> acts[i].cid != cid
  }

  lemma {:induction false} CallWaits(cfg: Config, s: Sys, acts: seq<Action>, cid: nat)
    requires cid in s.calls && LeavesAlone(acts, cid)
    ensures cid in Run(cfg, s, acts).calls && Run(cfg, s, acts).calls[cid] == s.calls[cid]
  {
    if acts != [] {
      hide Next, Start;
      CallWaits(cfg, s, acts[..|acts| - 1], cid);
    }
  }

  lemma RevokeAllRevokes(cfg: Config, s: Sys, cid: nat, f: Fault, mint: Mint)
    requires SysOk(cfg, s) && cid in s.calls && s.calls[cid].pc.RefreshRevokeAll? && !f.Lost?
    ensures var t, s' := TableOf(s), Step(cfg, s, Advance(cid, f, mint));
            && (forall g :: g in t && t[g].userId == s.calls[cid].pc.token.userId ==> RevokedIn(TableOf(s'), g))
            && cid in s'.calls && s'.calls[cid].pc == Done(Failed(if f.NoFault? then TokenRevoked else Infrastructure))
  {
  }

  /** A Refresh that finds its token revoked revokes every session that the owner has by the time of its
      second call, whatever other calls do in between, unless one of its two calls to the store fails; and
      it reports the reuse. */
  lemma ReuseIsAlwaysAnswered(cfg: Config, s: Sys, cid: nat, acts: seq<Action>, f: Fault, mint: Mint)
    requires SysOk(cfg, s) && cid in s.calls && s.calls[cid].pc.RefreshFind?
    requires RevokedIn(TableOf(s), s.calls[cid].pc.hash) && LeavesAlone(acts, cid) && !f.Lost?
    ensures var owner := TableOf(s)[s.calls[cid].pc.hash].userId;
            var mid := Run(cfg, Step(cfg, s, Go(cid, mint)), acts);
            var end := Step(cfg, mid, Advance(cid, f, mint));
            && (forall g :: g in TableOf(mid) && TableOf(mid)[g].userId == owner ==> RevokedIn(TableOf(end), g))
            && cid in end.calls
            && end.calls[cid].pc == Done(Failed(if f.NoFault? then TokenRevoked else Infrastructure))
  {
    hide Step, Run, SysOk, Grows;
    var found := Step(cfg, s, Go(cid, mint));
    FindDecides(cfg, s, cid, mint);
    StepIsSound(cfg, s, Go(cid, mint));
    CallWaits(cfg, found, acts, cid);
    RunIsSound(cfg, found, acts);
    RevokeAllRevokes(cfg, Run(cfg, found, acts), cid, f, mint);
  }

  // ---------------------------------------------------------------- After a reuse response

  lemma CannotSucceed(cfg: Config, s: Sys, cid: nat, f: Fault, mint: Mint, given: set<string>)
    requires cid in s.calls && s.calls[cid].pc.RefreshRevokeAll?
    ensures var s1 := Step(cfg, s, Advance(cid, f, mint));
            && !WillSucceed(cfg, s.users, s.calls[cid], given) && s1.users == s.users
            && cid in s1.calls && !WillSucceed(cfg, s1.users, s1.calls[cid], given)
            && s1.calls == s.calls[cid := s1.calls[cid]]
  {
  }

  /** The rows that the user had when a reuse was answered. */
  lemma OldRowsAreRevoked(cfg: Config, s: Sys, cid: nat, f: Fault, mint: Mint)
    requires SysOk(cfg, s) && cid in s.calls && s.calls[cid].pc.RefreshRevokeAll? && !f.Lost?
    ensures var s1, rows := Step(cfg, s, Advance(cid, f, mint)), RowsOf(TableOf(s), s.calls[cid].pc.token.userId);
            && SysOk(cfg, s1) && AllRevoked(s1, rows) && Survivors(cfg, s1, rows) == Survivors(cfg, s, rows)
  {
    hide SysOk, Grows, WillSucceed;
    StepIsSound(cfg, s, Advance(cid, f, mint));
    SoundToStart(cfg, s);
    CannotSucceed(cfg, s, cid, f, mint, RowsOf(TableOf(s), s.calls[cid].pc.token.userId));
  }

  /** The response to a reuse does not stop the user's Refresh calls under way that have read their token:
      they, and they alone, still get the old tokens a successor, at most one each. None can exactly when
      there is no such call, or no hash left. */
  lemma ReuseSurvivors(cfg: Config, s: Sys, cid: nat, f: Fault, mint: Mint)
    requires SysOk(cfg, s) && cid in s.calls && s.calls[cid].pc.RefreshRevokeAll? && !f.Lost?
    ensures var s1, rows := Step(cfg, s, Advance(cid, f, mint)), RowsOf(TableOf(s), s.calls[cid].pc.token.userId);
            forall acts :: |Successors(cfg, s1, acts, rows)| <= |Survivors(cfg, s, rows)|
    ensures var s1, rows := Step(cfg, s, Advance(cid, f, mint)), RowsOf(TableOf(s), s.calls[cid].pc.token.userId);
            cfg.ttl > 0 ==>
              ((forall acts :: Successors(cfg, s1, acts, rows) == {}) <==>
               Survivors(cfg, s, rows) == {} || HashesUsedUp(cfg, TableOf(s1)))
  {
    var s1, rows := Step(cfg, s, Advance(cid, f, mint)), RowsOf(TableOf(s), s.calls[cid].pc.token.userId);
    OldRowsAreRevoked(cfg, s, cid, f, mint);
    hide Step, SysOk, Survivors, AllRevoked, RowsOf;
    forall acts ensures |Successors(cfg, s1, acts, rows)| <= |Survivors(cfg, s, rows)| {
      SurvivorsBoundSuccessors(cfg, s1, acts, rows);
    }
    if cfg.ttl > 0 {
      NoSuccessorWhen(cfg, s1, rows);
    }
  }
}
