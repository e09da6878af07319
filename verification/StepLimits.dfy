/** What a state of interleaved calls still allows, exactly: who can exchange a revoked token, which
    revocation times it can be given, and which sessions a suspended user can get. */
module StepLimits {
  import opened Wrappers
  import opened Sets
  import opened Domain
  import opened Tables
  import opened Stores
  import opened Auth
  import opened Steps
  import opened StepSafety

  const NOTHING := Mint(0, None, 0, None)

  // ---------------------------------------------------------------- Exchanges

  /** A call that has found its token's owner active goes on to the write. */
  lemma FindsItsUser(cfg: Config, s: Sys, cid: nat)
    requires SysOk(cfg, s) && cid in s.calls && s.calls[cid].pc.RefreshFindUser?
    requires !SuspendedIn(s.users, s.calls[cid].pc.token.userId)
    ensures var c := s.calls[cid];
            var token := c.pc.token;
            && token.userId in s.users
            && Step(cfg, s, Go(cid, NOTHING)) ==
               s.(calls := s.calls[cid := c.(pc := RefreshUpdate(token.Revoke(c.now), s.users[token.userId]))])
  {
    CallIsOk(cfg, s, cid);
  }

  lemma Exchanges(cfg: Config, s: Sys, cid: nat, mint: Mint)
    requires SysOk(cfg, s) && cid in s.calls && s.calls[cid].pc.RefreshUpdate?
    ensures var c, tick := s.calls[cid], s.tokens.tick;
            Step(cfg, s, Go(cid, mint)) ==
            Sys(s.users, Mem(s.tokens.byHash[c.pc.token.hash := c.pc.token.RevocationKept(tick)], tick),
                s.calls[cid := c.(pc := SessionCreate(c.pc.user), exchanged := true)])
  {
    CallIsOk(cfg, s, cid);
  }

  /** Whoever has read h and not failed can be brought to exchange it, with no effect on other calls. */
  lemma ReaderExchanges(cfg: Config, s: Sys, cid: nat, h: string) returns (acts: seq<Action>)
    requires SysOk(cfg, s) && cid in Readers(cfg, s, h)
    ensures var s' := Run(cfg, s, acts);
            && s'.users == s.users && cid in s'.calls && s'.calls == s.calls[cid := s'.calls[cid]]
            && IsRefreshOf(cfg, s'.calls[cid], h) && s'.calls[cid].exchanged
  {
    CallIsOk(cfg, s, cid);
    var go := Go(cid, NOTHING);
    if s.calls[cid].exchanged {
      acts := [];
    } else if s.calls[cid].pc.RefreshUpdate? {
      acts := [go];
      RunOne(cfg, s, go);
      Exchanges(cfg, s, cid, NOTHING);
    } else {
      acts := [go, go];
      RunTwo(cfg, s, go, go);
      FindsItsUser(cfg, s, cid);
      StepIsSound(cfg, s, go);
      Exchanges(cfg, Step(cfg, s, go), cid, NOTHING);
    }
  }

  lemma {:induction false} AllReadersExchange(cfg: Config, s: Sys, h: string) returns (acts: seq<Action>)
    requires SysOk(cfg, s)
    ensures Exchangers(cfg, Run(cfg, s, acts), h) == Readers(cfg, s, h)
    decreases Readers(cfg, s, h) - Exchangers(cfg, s, h)
  {
    var readers, exchangers := Readers(cfg, s, h), Exchangers(cfg, s, h);
    if cid :| cid in readers && cid !in exchangers {
      var first := ReaderExchanges(cfg, s, cid, h);
      var s' := Run(cfg, s, first);
      RunIsSound(cfg, s, first);
      hide SysOk;
      assert Readers(cfg, s', h) == readers && Exchangers(cfg, s', h) == exchangers + {cid};
      var rest := AllReadersExchange(cfg, s', h);
      acts := first + rest;
      RunSplits(cfg, s, first, rest);
    } else {
      acts := [];
      assert exchangers == readers;
    }
  }

  /** The bound on the exchanges of a revoked token is exact: it is exchanged by nobody but the calls that
      have read it and not failed, and there is a schedule in which all of them exchange it. */
  lemma ReadersAreWhoCanExchange(cfg: Config, s: Sys, h: string)
    requires SysOk(cfg, s) && RevokedIn(s.tokens.byHash, h)
    ensures forall acts :: Exchangers(cfg, Run(cfg, s, acts), h) <= Readers(cfg, s, h)
    ensures exists acts :: Exchangers(cfg, Run(cfg, s, acts), h) == Readers(cfg, s, h)
  {
    forall acts ensures Exchangers(cfg, Run(cfg, s, acts), h) <= Readers(cfg, s, h) {
      OnlyEarlierReadersExchange(cfg, s, acts, h);
    }
    var acts := AllReadersExchange(cfg, s, h);
  }

  // ---------------------------------------------------------------- Revocation times

  function RevocationTime(s: Sys, h: string): Option<Time> {
    if h in TableOf(s) then TableOf(s)[h].revokedAt else None
  }

  /** About to write a revocation of h, or sure to be once its user is read. */
  predicate WillWrite(users: UserTable, c: InFlight, h: string) {
    || ((c.pc.RefreshUpdate? || c.pc.LogoutUpdate?) && c.pc.token.hash == h)
    || (c.pc.RefreshFindUser? && c.pc.token.hash == h && !SuspendedIn(users, c.pc.token.userId))
  }

  function Writers(s: Sys, h: string): set<nat> {
    set cid | cid in s.calls && WillWrite(s.users, s.calls[cid], h)
  }

  /** What the store keeps of the time of a call. */
  function StoredTime(s: Sys, now: Time): Option<Time>
    requires s.tokens.Mem?
  {
    Some(Floor(s.tokens.tick, now))
  }

  /** The time h has now, or that of a call about to write it. */
  ghost predicate PossibleTime(s: Sys, h: string, r: Option<Time>)
    requires s.tokens.Mem?
  {
    r == RevocationTime(s, h) || exists cid :: cid in Writers(s, h) && r == StoredTime(s, s.calls[cid].now)
  }

  lemma NextWrites(cfg: Config, s: Sys, cid: nat, f: Fault, mint: Mint, h: string)
    requires SysOk(cfg, s) && RevokedIn(s.tokens.byHash, h) && cid in s.calls
    ensures var c := s.calls[cid];
            var tokens' := Next(cfg, s.users, s.tokens, c, f, mint).1;
            && tokens'.Mem? && h in tokens'.byHash
            && (tokens'.byHash[h].revokedAt == s.tokens.byHash[h].revokedAt
                || (WillWrite(s.users, c, h) && tokens'.byHash[h].revokedAt == StoredTime(s, c.now)))
  {
    hide FindUserByEmail, NewRefreshToken, CreateUser, UpdateUser, SysOk;
    TablesAreKeyed(cfg, s);
    CallIsOk(cfg, s, cid);
  }

  lemma NobodyStartsWriting(cfg: Config, s: Sys, cid: nat, f: Fault, mint: Mint, h: string)
    requires SysOk(cfg, s) && RevokedIn(s.tokens.byHash, h) && cid in s.calls
    ensures var c := s.calls[cid];
            var (users', _, c') := Next(cfg, s.users, s.tokens, c, f, mint);
            c'.now == c.now && (WillWrite(users', c', h) ==> WillWrite(s.users, c, h))
  {
    hide FindUserByEmail, NewRefreshToken, Create, Update, RevokeAllFor, CreateUser, SysOk;
    TablesAreKeyed(cfg, s);
    CallIsOk(cfg, s, cid);
  }

  lemma StaysHarmless(cfg: Config, s: Sys, s': Sys, c: InFlight, h: string)
    requires s.tokens.Mem? && s'.tokens.Mem? && Grows(s.users, s.tokens.byHash, s'.users, s'.tokens.byHash)
    requires WillWrite(s'.users, c, h)
    ensures WillWrite(s.users, c, h)
  {
  }

  lemma StartsHarmless(cfg: Config, users: UserTable, call: Call, now: Time, mint: Mint, h: string)
    ensures !WillWrite(users, Start(cfg, call, now, mint), h)
  {
  }

  /** Nobody becomes a writer of a revoked token, and only a writer changes its time, to its own. */
  lemma StepWrites(cfg: Config, s: Sys, a: Action, h: string)
    requires SysOk(cfg, s) && RevokedIn(s.tokens.byHash, h)
    ensures var s' := Step(cfg, s, a);
            && Writers(s', h) <= Writers(s, h)
            && (forall cid :: cid in s.calls ==> cid in s'.calls && s'.calls[cid].now == s.calls[cid].now)
            && (RevocationTime(s', h) == RevocationTime(s, h)
                || exists cid :: cid in Writers(s, h) && RevocationTime(s', h) == StoredTime(s, s.calls[cid].now))
  {
    hide SysOk, Next, WillWrite, Grows, Start;
    var s' := Step(cfg, s, a);
    StepIsSound(cfg, s, a);
    SoundToStart(cfg, s);
    SoundToStart(cfg, s');
    if a.Advance? && a.cid in s.calls {
      NextWrites(cfg, s, a.cid, a.fault, a.mint, h);
      NobodyStartsWriting(cfg, s, a.cid, a.fault, a.mint, h);
    }
    forall cid | cid in Writers(s', h) ensures cid in Writers(s, h) {
      if cid !in s.calls {
        StartsHarmless(cfg, s'.users, a.call, a.now, a.mint, h);
      } else if !(a.Advance? && a.cid == cid) {
        StaysHarmless(cfg, s, s', s.calls[cid], h);
      }
    }
  }

  lemma {:induction false} OnlyWritersWrite(cfg: Config, s: Sys, acts: seq<Action>, h: string)
    requires SysOk(cfg, s) && RevokedIn(s.tokens.byHash, h)
    ensures var s' := Run(cfg, s, acts);
            && Writers(s', h) <= Writers(s, h)
            && (forall cid :: cid in s.calls ==> cid in s'.calls && s'.calls[cid].now == s.calls[cid].now)
            && PossibleTime(s, h, RevocationTime(s', h))
  {
    if acts != [] {
      hide SysOk, Step, Writers, RevocationTime;
      var mid := Run(cfg, s, acts[..|acts| - 1]);
      OnlyWritersWrite(cfg, s, acts[..|acts| - 1], h);
      RunIsSound(cfg, s, acts[..|acts| - 1]);
      StaysRevoked(cfg, s, mid, h);
      StepWrites(cfg, mid, acts[|acts| - 1], h);
      WritersAreCalls(s, h);
    }
  }

  lemma WritersAreCalls(s: Sys, h: string)
    ensures Writers(s, h) <= s.calls.Keys
  {
  }

  lemma StaysRevoked(cfg: Config, s: Sys, s': Sys, h: string)
    requires SysOk(cfg, s) && SysOk(cfg, s') && RevokedIn(s.tokens.byHash, h)
    requires Grows(s.users, s.tokens.byHash, s'.users, s'.tokens.byHash)
    ensures s'.tokens.Mem? && RevokedIn(s'.tokens.byHash, h)
  {
  }

  lemma WriterWrites(cfg: Config, s: Sys, cid: nat, h: string) returns (acts: seq<Action>)
    requires SysOk(cfg, s) && cid in Writers(s, h)
    ensures RevocationTime(Run(cfg, s, acts), h) == StoredTime(s, s.calls[cid].now)
  {
    CallIsOk(cfg, s, cid);
    var go := Go(cid, NOTHING);
    if s.calls[cid].pc.RefreshFindUser? {
      acts := [go, go];
      RunTwo(cfg, s, go, go);
      FindsItsUser(cfg, s, cid);
      StepIsSound(cfg, s, go);
      Exchanges(cfg, Step(cfg, s, go), cid, NOTHING);
    } else {
      acts := [go];
      RunOne(cfg, s, go);
    }
  }

  /** The revocation times that a revoked token can have later are the one it has and those of the calls
      that hold a copy they will write, no more and no fewer. */
  lemma RevocationTimesAhead(cfg: Config, s: Sys, h: string, r: Option<Time>)
    requires SysOk(cfg, s) && RevokedIn(s.tokens.byHash, h)
    ensures (exists acts :: RevocationTime(Run(cfg, s, acts), h) == r) <==> PossibleTime(s, h, r)
  {
    if acts :| RevocationTime(Run(cfg, s, acts), h) == r {
      OnlyWritersWrite(cfg, s, acts, h);
    }
    if r == RevocationTime(s, h) {
      assert Run(cfg, s, []) == s;
    } else if cid :| cid in Writers(s, h) && r == StoredTime(s, s.calls[cid].now) {
      var acts := WriterWrites(cfg, s, cid, h);
    }
  }

  /** So the revocation time is kept whatever follows if and only if no such call has another time. */
  lemma RevocationTimeIsKeptWhen(cfg: Config, s: Sys, h: string)
    requires SysOk(cfg, s) && RevokedIn(s.tokens.byHash, h)
    ensures (forall acts :: RevocationTime(Run(cfg, s, acts), h) == s.tokens.byHash[h].revokedAt) <==>
            (forall cid :: cid in Writers(s, h) ==> StoredTime(s, s.calls[cid].now) == s.tokens.byHash[h].revokedAt)
  {
    var r := s.tokens.byHash[h].revokedAt;
    if forall cid :: cid in Writers(s, h) ==> StoredTime(s, s.calls[cid].now) == r {
      forall acts ensures RevocationTime(Run(cfg, s, acts), h) == r {
        OnlyWritersWrite(cfg, s, acts, h);
      }
    } else {
      var cid :| cid in Writers(s, h) && StoredTime(s, s.calls[cid].now) != r;
      var acts := WriterWrites(cfg, s, cid, h);
    }
  }

  // ---------------------------------------------------------------- Suspension

  function RowsOf(t: TokenTable, id: Id): set<string> {
    set h | h in t && t[h].userId == id
  }

  /** Has read its user while active and has not yet inserted the row. */
  predicate WillOpen(c: InFlight, id: Id) {
    (c.pc.RefreshUpdate? || c.pc.SessionCreate?) && c.pc.user.id == id
  }

  function Openers(s: Sys, id: Id): set<nat> {
    set cid | cid in s.calls && WillOpen(s.calls[cid], id)
  }

  /** One row more at most, and only for an opener, which then is one no longer. */
  ghost predicate OpensAtMostOne(t: TokenTable, t': TokenTable, c: InFlight, c': InFlight, id: Id) {
    && (WillOpen(c', id) ==> WillOpen(c, id))
    && (RowsOf(t', id) == RowsOf(t, id) ||
        (WillOpen(c, id) && !WillOpen(c', id) && exists h :: RowsOf(t', id) == RowsOf(t, id) + {h}))
  }

  lemma SameOwnersSameRows(t: TokenTable, t': TokenTable, id: Id)
    requires t.Keys == t'.Keys && forall h :: h in t ==> t'[h].userId == t[h].userId
    ensures RowsOf(t', id) == RowsOf(t, id)
  {
  }

  lemma RowsOfOneMore(t: TokenTable, row: TokenRow, id: Id)
    requires row.hash !in t
    ensures RowsOf(t[row.hash := row], id) == RowsOf(t, id) + if row.userId == id then {row.hash} else {}
  {
  }

  lemma CreateOpens(cfg: Config, s: Sys, cid: nat, f: Fault, mint: Mint, id: Id)
    requires SysOk(cfg, s) && cid in s.calls && s.calls[cid].pc.SessionCreate?
    ensures var (_, tokens', c') := Next(cfg, s.users, s.tokens, s.calls[cid], f, mint);
            tokens'.Mem? && OpensAtMostOne(s.tokens.byHash, tokens'.byHash, s.calls[cid], c', id)
  {
    TablesAreKeyed(cfg, s);
    hide SysOk, RowsOf, UnusedTokenId;
    var c, t := s.calls[cid], s.tokens.byHash;
    var row := NewRefreshToken(cfg, c.pc.user.id, c.now, mint);
    if row.Ok? && row.value.hash !in t {
      RowsOfOneMore(t, row.value.Kept(s.tokens.tick), id);
    }
  }

  lemma OthersInsertNothing(cfg: Config, s: Sys, cid: nat, f: Fault, mint: Mint)
    requires SysOk(cfg, s) && cid in s.calls && !s.calls[cid].pc.SessionCreate?
    ensures var tokens' := Next(cfg, s.users, s.tokens, s.calls[cid], f, mint).1;
            tokens'.Mem? && tokens'.byHash.Keys == s.tokens.byHash.Keys
  {
    CallIsOk(cfg, s, cid);
  }

  lemma OnlyCreateInserts(cfg: Config, s: Sys, a: Action) returns (row: TokenRow)
    requires SysOk(cfg, s) && TableOf(Step(cfg, s, a)).Keys != TableOf(s).Keys
    ensures a.Advance? && a.cid in s.calls && s.calls[a.cid].pc.SessionCreate?
    ensures row.hash !in s.tokens.byHash && TableOf(Step(cfg, s, a)) == s.tokens.byHash[row.hash := row]
  {
    if !s.calls[a.cid].pc.SessionCreate? {
      OthersInsertNothing(cfg, s, a.cid, a.fault, a.mint);
    } else {
      row := NewRefreshToken(cfg, s.calls[a.cid].pc.user.id, s.calls[a.cid].now, a.mint).value.Kept(s.tokens.tick);
    }
  }

  lemma NobodyStartsOpening(cfg: Config, s: Sys, cid: nat, f: Fault, mint: Mint, id: Id)
    requires SysOk(cfg, s) && cid in s.calls && SuspendedIn(s.users, id)
    requires WillOpen(Next(cfg, s.users, s.tokens, s.calls[cid], f, mint).2, id)
    ensures WillOpen(s.calls[cid], id)
  {
    hide FindUserByEmail, NewRefreshToken, Create, Update, RevokeAllFor, CreateUser, SysOk;
    TablesAreKeyed(cfg, s);
    CallIsOk(cfg, s, cid);
    FoundByEmail(cfg, s, if s.calls[cid].pc.LoginFind? then s.calls[cid].pc.email else "");
  }

  lemma NextOpens(cfg: Config, s: Sys, cid: nat, f: Fault, mint: Mint, id: Id)
    requires SysOk(cfg, s) && cid in s.calls && SuspendedIn(s.users, id)
    ensures var (_, tokens', c') := Next(cfg, s.users, s.tokens, s.calls[cid], f, mint);
            tokens'.Mem? && OpensAtMostOne(s.tokens.byHash, tokens'.byHash, s.calls[cid], c', id)
  {
    if s.calls[cid].pc.SessionCreate? {
      CreateOpens(cfg, s, cid, f, mint, id);
    } else {
      OthersInsertNothing(cfg, s, cid, f, mint);
      StepIsSound(cfg, s, Advance(cid, f, mint));
      hide SysOk, Next, RowsOf, WillOpen;
      SameOwnersSameRows(s.tokens.byHash, Next(cfg, s.users, s.tokens, s.calls[cid], f, mint).1.byHash, id);
      if WillOpen(Next(cfg, s.users, s.tokens, s.calls[cid], f, mint).2, id) {
        NobodyStartsOpening(cfg, s, cid, f, mint, id);
      }
    }
  }

  lemma StartsClosed(cfg: Config, call: Call, now: Time, mint: Mint, id: Id)
    ensures !WillOpen(Start(cfg, call, now, mint), id)
  {
  }

  lemma StepOpens(cfg: Config, s: Sys, a: Action, id: Id)
    requires SysOk(cfg, s) && SuspendedIn(s.users, id)
    ensures var s' := Step(cfg, s, a);
            && Openers(s', id) <= Openers(s, id)
            && RowsOf(TableOf(s), id) <= RowsOf(TableOf(s'), id)
            && |RowsOf(TableOf(s'), id)| + |Openers(s', id)| <= |RowsOf(TableOf(s), id)| + |Openers(s, id)|
  {
    SoundToStart(cfg, s);
    hide SysOk, Next, WillOpen, Start, RowsOf;
    var s' := Step(cfg, s, a);
    if a.Begin? {
      StartsClosed(cfg, a.call, a.now, a.mint, id);
      assert Openers(s', id) == Openers(s, id);
    } else if a.cid in s.calls {
      var rows, rows' := RowsOf(TableOf(s), id), RowsOf(TableOf(s'), id);
      NextOpens(cfg, s, a.cid, a.fault, a.mint, id);
      if rows' == rows {
        SubsetIsSmaller(Openers(s', id), Openers(s, id));
      } else {
        var h :| rows' == rows + {h};
        SubsetIsSmaller(Openers(s', id), Openers(s, id) - {a.cid});
      }
    }
  }

  /** A stored suspension stays. The rows inserted for the user afterwards, and the calls that may still
      insert one, are together no more than those calls were when it was stored. */
  lemma {:induction false} OpenersBoundNewRows(cfg: Config, s: Sys, acts: seq<Action>, id: Id)
    requires SysOk(cfg, s) && SuspendedIn(s.users, id)
    ensures var s' := Run(cfg, s, acts);
            && SuspendedIn(s'.users, id)
            && Openers(s', id) <= Openers(s, id)
            && RowsOf(TableOf(s), id) <= RowsOf(TableOf(s'), id)
            && |RowsOf(TableOf(s'), id)| + |Openers(s', id)| <= |RowsOf(TableOf(s), id)| + |Openers(s, id)|
  {
    if acts != [] {
      hide SysOk, Step, Openers, RowsOf, TableOf, SuspendedIn, Grows;
      var mid := Run(cfg, s, acts[..|acts| - 1]);
      OpenersBoundNewRows(cfg, s, acts[..|acts| - 1], id);
      RunIsSound(cfg, s, acts[..|acts| - 1]);
      StepIsSound(cfg, mid, acts[|acts| - 1]);
      StaysSuspended(cfg, mid, Run(cfg, s, acts), id);
      StepOpens(cfg, mid, acts[|acts| - 1], id);
    }
  }

  lemma StaysSuspended(cfg: Config, s: Sys, s': Sys, id: Id)
    requires SysOk(cfg, s) && SysOk(cfg, s') && SuspendedIn(s.users, id)
    requires Grows(s.users, s.tokens.byHash, s'.users, s'.tokens.byHash)
    ensures SuspendedIn(s'.users, id)
  {
  }

  // When no secret has an unused hash, no row can be inserted at all.

  ghost predicate HashesUsedUp(cfg: Config, t: TokenTable) {
    forall secret :: cfg.hashToken(secret) in t
  }

  lemma NothingFits(cfg: Config, s: Sys, a: Action)
    requires SysOk(cfg, s) && HashesUsedUp(cfg, s.tokens.byHash)
    ensures TableOf(Step(cfg, s, a)).Keys == TableOf(s).Keys
  {
    if a.Advance? && a.cid in s.calls && !s.calls[a.cid].pc.SessionCreate? {
      OthersInsertNothing(cfg, s, a.cid, a.fault, a.mint);
      hide Next;
    }
  }

  lemma {:induction false} NothingFitsAnyMore(cfg: Config, s: Sys, acts: seq<Action>)
    requires SysOk(cfg, s) && HashesUsedUp(cfg, s.tokens.byHash)
    ensures TableOf(Run(cfg, s, acts)).Keys == TableOf(s).Keys
  {
    if acts != [] {
      hide Step;
      var n := |acts| - 1;
      NothingFitsAnyMore(cfg, s, acts[..n]);
      RunIsSound(cfg, s, acts[..n]);
      NothingFits(cfg, Run(cfg, s, acts[..n]), acts[n]);
    }
  }

  lemma UnusedIdExists(t: TokenTable) returns (id: Id)
    ensures IdUnused(t, id)
  {
    var used := set h | h in t :: t[h].id;
    id := NumberOutside(used);
    forall h | h in t ensures t[h].id != id {
      assert t[h].id in used;
    }
  }

  lemma CreateInserts(cfg: Config, s: Sys, cid: nat, mint: Mint)
    requires cfg.ttl > 0 && s.tokens.Mem? && cid in s.calls && s.calls[cid].pc.SessionCreate?
    requires mint.secret.Some? && cfg.hashToken(mint.secret.value) !in s.tokens.byHash
    requires UnusedTokenId(s.tokens, mint.tokenId)
    ensures var c := s.calls[cid];
            var h := cfg.hashToken(mint.secret.value);
            var row := TokenRow(mint.tokenId, c.pc.user.id, h, c.now, c.now + cfg.ttl, None);
            Step(cfg, s, Go(cid, mint)) ==
            Sys(s.users, Mem(s.tokens.byHash[h := row.Kept(s.tokens.tick)], s.tokens.tick),
                s.calls[cid := c.(pc := SessionIssue(c.pc.user, row, mint.secret.value))])
  {
  }

  lemma OpenerOpens(cfg: Config, s: Sys, cid: nat, id: Id, secret: string) returns (acts: seq<Action>)
    requires cfg.ttl > 0 && SysOk(cfg, s) && cid in Openers(s, id) && cfg.hashToken(secret) !in s.tokens.byHash
    ensures cfg.hashToken(secret) in RowsOf(TableOf(Run(cfg, s, acts)), id)
  {
    var tokenId := UnusedIdExists(s.tokens.byHash);
    var go := Go(cid, Mint(0, None, tokenId, Some(secret)));
    CallIsOk(cfg, s, cid);
    if s.calls[cid].pc.SessionCreate? {
      acts := [go];
      RunOne(cfg, s, go);
      CreateInserts(cfg, s, cid, go.mint);
    } else {
      acts := [Go(cid, NOTHING), go];
      RunTwo(cfg, s, Go(cid, NOTHING), go);
      Exchanges(cfg, s, cid, NOTHING);
      CreateInserts(cfg, Step(cfg, s, Go(cid, NOTHING)), cid, go.mint);
    }
  }

  /** A suspended user gets no further row, whatever follows, if and only if no call had read the user
      before and still has the row to insert (or there is no hash left for any row). */
  lemma SuspensionIsFinalWhen(cfg: Config, s: Sys, id: Id)
    requires cfg.ttl > 0 && SysOk(cfg, s) && SuspendedIn(s.users, id)
    ensures (forall acts :: RowsOf(TableOf(Run(cfg, s, acts)), id) == RowsOf(s.tokens.byHash, id)) <==>
            Openers(s, id) == {} || HashesUsedUp(cfg, s.tokens.byHash)
  {
    var t := s.tokens.byHash;
    if cid :| cid in Openers(s, id) && !HashesUsedUp(cfg, t) {
      var secret :| cfg.hashToken(secret) !in t;
      var acts := OpenerOpens(cfg, s, cid, id, secret);
      assert cfg.hashToken(secret) !in RowsOf(t, id);
    } else {
      forall acts ensures RowsOf(TableOf(Run(cfg, s, acts)), id) == RowsOf(t, id) {
        NoFurtherRow(cfg, s, acts, id);
      }
    }
  }

  lemma NoFurtherRow(cfg: Config, s: Sys, acts: seq<Action>, id: Id)
    requires SysOk(cfg, s) && SuspendedIn(s.users, id)
    requires Openers(s, id) == {} || HashesUsedUp(cfg, s.tokens.byHash)
    ensures RowsOf(TableOf(Run(cfg, s, acts)), id) == RowsOf(s.tokens.byHash, id)
  {
    if Openers(s, id) == {} {
      OpenersBoundNewRows(cfg, s, acts, id);
      SameSizeSubset(RowsOf(s.tokens.byHash, id), RowsOf(TableOf(Run(cfg, s, acts)), id));
    } else {
      NothingFitsAnyMore(cfg, s, acts);
      RunIsSound(cfg, s, acts);
      SameOwnersSameRows(s.tokens.byHash, TableOf(Run(cfg, s, acts)), id);
    }
  }
}
