/** What every interleaving keeps, whatever fails. */
module StepSafety {
  import opened Wrappers
  import opened Sets
  import opened Domain
  import opened Tables
  import opened Auth
  import opened Steps
  import AuthRuns

  // ---------------------------------------------------------------- The invariant

  /** Rows are never removed or renamed, and a revoked row stays revoked; its revocation time may be
      overwritten. Users keep their email, and a suspended user stays suspended. */
  ghost predicate Grows(users: UserTable, t: TokenTable, users': UserTable, t': TokenTable) {
    && (forall h :: h in t ==> h in t' && t[h].SameToken(t'[h]) && (t[h].revokedAt.Some? ==> t'[h].revokedAt.Some?))
    && (forall id :: id in users ==>
          && id in users' && users'[id].email == users[id].email
          && (users[id].status == Suspended ==> users'[id].status == Suspended))
  }

  ghost predicate TablesOk(users: UserTable, t: TokenTable) {
    && AuthRuns.TokensKeyed(t)
    && (forall h :: h in t ==> t[h].userId in users)
    && (forall id :: id in users ==> users[id].id == id)
    && UniqueEmails(users)
  }

  /** A copy someone holds still names a stored row and agrees with it in all but revocation. */
  predicate CopyOf(t: TokenTable, token: TokenRow) {
    token.hash in t && t[token.hash].SameToken(token)
  }

  predicate RevokedIn(t: TokenTable, h: string) {
    h in t && t[h].revokedAt.Some?
  }

  predicate OwnedBy(t: TokenTable, h: string, userId: Id) {
    h in t && t[h].userId == userId
  }

  predicate IsRefreshOf(cfg: Config, c: InFlight, h: string) {
    c.call.Refresh? && cfg.hashToken(c.call.secret) == h
  }

  /** A session opened by Refresh belongs to the owner of the token that was given. */
  predicate SessionFor(cfg: Config, t: TokenTable, c: InFlight, user: UserRow) {
    && (c.exchanged <==> c.call.Refresh?)
    && (c.call.Refresh? ==> OwnedBy(t, cfg.hashToken(c.call.secret), user.id))
  }

  predicate CallOk(cfg: Config, users: UserTable, t: TokenTable, tick: Tick, c: InFlight) {
    && (match c.pc
        case RegisterCreate(user) => c.call.Register?
        case LoginFind(_, _) => c.call.Login?
        case RefreshFind(h) => IsRefreshOf(cfg, c, h)
        case RefreshRevokeAll(token) => IsRefreshOf(cfg, c, token.hash) && CopyOf(t, token) && RevokedIn(t, token.hash)
        case RefreshFindUser(token) => IsRefreshOf(cfg, c, token.hash) && CopyOf(t, token) && token.revokedAt.None?
        case RefreshUpdate(token, user) =>
          IsRefreshOf(cfg, c, token.hash) && CopyOf(t, token) && token.revokedAt == Some(c.now) &&
          user.id in users && token.userId == user.id
        case LogoutFind(_) => c.call.Logout?
        case LogoutUpdate(token) => c.call.Logout? && CopyOf(t, token) && token.revokedAt == Some(c.now)
        case SuspendFind(_) => c.call.Suspend?
        case SuspendUpdate(user) =>
          c.call.Suspend? && user.id in users && users[user.id].email == user.email && user.status == Suspended
        case SessionCreate(user) => user.id in users && SessionFor(cfg, t, c, user)
        case SessionIssue(user, row, secret) =>
          && user.id in users && SessionFor(cfg, t, c, user)
          && CopyOf(t, row.Kept(tick)) && row.userId == user.id && cfg.hashToken(secret) == row.hash
        case Done(reply) =>
          AuthRuns.PairOf(reply).Some? ==>
            var pair := AuthRuns.PairOf(reply).value;
            var h := cfg.hashToken(pair.refreshToken);
            && h in t && t[h].expiresAt == Floor(tick, pair.refreshExpiresAt)
            && (reply.Authenticated? ==> t[h].userId == reply.user.id)
            && (reply.Refreshed? ==> c.call.Refresh? && OwnedBy(t, cfg.hashToken(c.call.secret), t[h].userId)))
    && (c.exchanged ==>
          && c.call.Refresh? && RevokedIn(t, cfg.hashToken(c.call.secret))
          && (c.pc.SessionCreate? || c.pc.SessionIssue? || c.pc.Done?))
  }

  ghost predicate SysOk(cfg: Config, s: Sys) {
    && s.tokens.Mem?
    && TablesOk(s.users, s.tokens.byHash)
    && forall cid :: cid in s.calls ==> CallOk(cfg, s.users, s.tokens.byHash, s.tokens.tick, s.calls[cid])
  }

  function TableOf(s: Sys): TokenTable {
    if s.tokens.Mem? then s.tokens.byHash else map[]
  }

  /** Nothing stored and nothing in flight. */
  function Idle(tick: Tick): Sys {
    Sys(map[], Mem(map[], tick), map[])
  }

  lemma CallIsOk(cfg: Config, s: Sys, cid: nat)
    requires SysOk(cfg, s) && cid in s.calls
    ensures CallOk(cfg, s.users, s.tokens.byHash, s.tokens.tick, s.calls[cid])
  {
  }

  lemma TablesAreKeyed(cfg: Config, s: Sys)
    requires SysOk(cfg, s)
    ensures s.tokens.Mem?
    ensures forall h :: h in s.tokens.byHash ==> s.tokens.byHash[h].hash == h
    ensures forall id :: id in s.users ==> s.users[id].id == id
  {
  }

  lemma CallStaysOk(cfg: Config, users: UserTable, t: TokenTable, users': UserTable, t': TokenTable,
                    tick: Tick, c: InFlight)
    requires CallOk(cfg, users, t, tick, c) && Grows(users, t, users', t')
    ensures CallOk(cfg, users', t', tick, c)
  {
  }

  // ---------------------------------------------------------------- One step keeps the invariant

  /** What a step may leave behind. */
  ghost predicate Sound(users: UserTable, t: TokenTable, users': UserTable, t': TokenTable) {
    TablesOk(users', t') && Grows(users, t, users', t')
  }

  lemma NothingWritten(users: UserTable, t: TokenTable)
    requires TablesOk(users, t)
    ensures Sound(users, t, users, t)
  {
  }

  lemma RowInserted(users: UserTable, t: TokenTable, row: TokenRow)
    requires TablesOk(users, t) && row.hash !in t && row.userId in users
    ensures Sound(users, t, users, t[row.hash := row])
  {
  }

  lemma CopyWritten(users: UserTable, t: TokenTable, copy: TokenRow)
    requires TablesOk(users, t) && CopyOf(t, copy) && copy.revokedAt.Some?
    ensures Sound(users, t, users, t[copy.hash := copy])
  {
  }

  lemma RowsRevoked(users: UserTable, t: TokenTable, userId: Id, now: Time)
    requires TablesOk(users, t)
    ensures Sound(users, t, users, RevokeAll(t, userId, now))
  {
  }

  lemma UserInserted(users: UserTable, t: TokenTable, user: UserRow)
    requires TablesOk(users, t) && user.id !in users && !EmailTakenIn(users, user.email)
    ensures Sound(users, t, users[user.id := user], t)
  {
  }

  lemma UserOverwritten(users: UserTable, t: TokenTable, user: UserRow)
    requires TablesOk(users, t) && user.id in users && users[user.id].email == user.email && user.status == Suspended
    ensures Sound(users, t, users[user.id := user], t)
  {
  }

  lemma FoundUserIsStored(users: UserTable, t: TokenTable, email: string)
    requires TablesOk(users, t)
    ensures var u := FindUserByEmail(users, email);
            u.Ok? ==> u.value.id in users && users[u.value.id] == u.value
    ensures forall id :: id in users ==> users[id].id == id
    ensures forall h :: h in t ==> t[h].hash == h
  {
  }

  lemma FoundByEmail(cfg: Config, s: Sys, email: string)
    requires SysOk(cfg, s)
    ensures var u := FindUserByEmail(s.users, email);
            u.Ok? ==> u.value.id in s.users && s.users[u.value.id] == u.value
  {
  }

  lemma NextIsSound(cfg: Config, users: UserTable, t: TokenTable, tick: Tick, c: InFlight, f: Fault, mint: Mint)
    requires TablesOk(users, t) && CallOk(cfg, users, t, tick, c)
    ensures Next(cfg, users, Mem(t, tick), c, f, mint).1.Mem?
    ensures var (users', tokens', _) := Next(cfg, users, Mem(t, tick), c, f, mint);
            Sound(users, t, users', tokens'.byHash)
  {
    hide Sound, TablesOk, FindUserByEmail, Start;
    NothingWritten(users, t);
    match c.pc
    case RegisterCreate(user) =>
      if user.id !in users && !EmailTakenIn(users, user.email) {
        UserInserted(users, t, user);
      }
    case RefreshRevokeAll(token) => RowsRevoked(users, t, token.userId, Floor(tick, c.now));
    case RefreshUpdate(token, _) => CopyWritten(users, t, token.RevocationKept(tick));
    case LogoutUpdate(token) => CopyWritten(users, t, token.RevocationKept(tick));
    case SuspendUpdate(user) => UserOverwritten(users, t, user);
    case SessionCreate(user) =>
      var row := NewRefreshToken(cfg, user.id, c.now, mint);
      if row.Ok? && row.value.hash !in t {
        RowInserted(users, t, row.value.Kept(tick));
      }
    case _ =>
  }

  ghost predicate NextOk(cfg: Config, users: UserTable, t: TokenTable, tick: Tick, c: InFlight, f: Fault, mint: Mint) {
    var (users', tokens', c') := Next(cfg, users, Mem(t, tick), c, f, mint);
    tokens'.Mem? && tokens'.tick == tick && CallOk(cfg, users', tokens'.byHash, tick, c')
  }

  lemma FindOk(cfg: Config, users: UserTable, t: TokenTable, tick: Tick, c: InFlight, f: Fault, mint: Mint)
    requires TablesOk(users, t) && CallOk(cfg, users, t, tick, c)
    requires c.pc.LoginFind? || c.pc.RefreshFind? || c.pc.RefreshFindUser? || c.pc.LogoutFind? || c.pc.SuspendFind?
    ensures NextOk(cfg, users, t, tick, c, f, mint)
  {
    hide TablesOk, FindUserByEmail;
    FoundUserIsStored(users, t, if c.pc.LoginFind? then c.pc.email else "");
  }

  lemma RefreshWriteOk(cfg: Config, users: UserTable, t: TokenTable, tick: Tick, c: InFlight, f: Fault, mint: Mint)
    requires TablesOk(users, t) && CallOk(cfg, users, t, tick, c) && (c.pc.RefreshRevokeAll? || c.pc.RefreshUpdate?)
    ensures NextOk(cfg, users, t, tick, c, f, mint)
  {
  }

  lemma WriteOk(cfg: Config, users: UserTable, t: TokenTable, tick: Tick, c: InFlight, f: Fault, mint: Mint)
    requires TablesOk(users, t) && CallOk(cfg, users, t, tick, c)
    requires c.pc.RegisterCreate? || c.pc.LogoutUpdate? || c.pc.SuspendUpdate? || c.pc.Done?
    ensures NextOk(cfg, users, t, tick, c, f, mint)
  {
  }

  lemma SessionCreateOk(cfg: Config, users: UserTable, t: TokenTable, tick: Tick, c: InFlight, f: Fault, mint: Mint)
    requires CallOk(cfg, users, t, tick, c) && c.pc.SessionCreate?
    ensures NextOk(cfg, users, t, tick, c, f, mint)
  {
    var row := NewRefreshToken(cfg, c.pc.user.id, c.now, mint);
    if row.Ok? {
      var t' := t[row.value.hash := row.value.Kept(tick)];
      assert CopyOf(t', row.value.Kept(tick));
    }
  }

  lemma SessionIssueOk(cfg: Config, users: UserTable, t: TokenTable, tick: Tick, c: InFlight, f: Fault, mint: Mint)
    requires CallOk(cfg, users, t, tick, c) && c.pc.SessionIssue?
    ensures NextOk(cfg, users, t, tick, c, f, mint)
  {
  }

  lemma NextIsOk(cfg: Config, users: UserTable, t: TokenTable, tick: Tick, c: InFlight, f: Fault, mint: Mint)
    requires TablesOk(users, t) && CallOk(cfg, users, t, tick, c)
    ensures NextOk(cfg, users, t, tick, c, f, mint)
  {
    hide TablesOk, CallOk, NextOk;
    match c.pc
    case RegisterCreate(_) => WriteOk(cfg, users, t, tick, c, f, mint);
    case LogoutUpdate(_) => WriteOk(cfg, users, t, tick, c, f, mint);
    case SuspendUpdate(_) => WriteOk(cfg, users, t, tick, c, f, mint);
    case Done(_) => WriteOk(cfg, users, t, tick, c, f, mint);
    case RefreshRevokeAll(_) => RefreshWriteOk(cfg, users, t, tick, c, f, mint);
    case RefreshUpdate(_, _) => RefreshWriteOk(cfg, users, t, tick, c, f, mint);
    case SessionCreate(_) => SessionCreateOk(cfg, users, t, tick, c, f, mint);
    case SessionIssue(_, _, _) => SessionIssueOk(cfg, users, t, tick, c, f, mint);
    case _ => FindOk(cfg, users, t, tick, c, f, mint);
  }

  lemma StepIsSound(cfg: Config, s: Sys, a: Action)
    requires SysOk(cfg, s)
    ensures SysOk(cfg, Step(cfg, s, a)) && Step(cfg, s, a).tokens.tick == s.tokens.tick
    ensures Grows(s.users, s.tokens.byHash, Step(cfg, s, a).users, Step(cfg, s, a).tokens.byHash)
  {
    var s' := Step(cfg, s, a);
    NothingWritten(s.users, s.tokens.byHash);
    if a.Advance? && a.cid in s.calls {
      NextIsSound(cfg, s.users, s.tokens.byHash, s.tokens.tick, s.calls[a.cid], a.fault, a.mint);
      NextIsOk(cfg, s.users, s.tokens.byHash, s.tokens.tick, s.calls[a.cid], a.fault, a.mint);
      hide TablesOk, CallOk, Next, Grows;
      forall cid | cid in s'.calls ensures CallOk(cfg, s'.users, s'.tokens.byHash, s'.tokens.tick, s'.calls[cid]) {
        if cid != a.cid {
          CallStaysOk(cfg, s.users, s.tokens.byHash, s'.users, s'.tokens.byHash, s.tokens.tick, s.calls[cid]);
        }
      }
    }
  }

  // ---------------------------------------------------------------- Whole runs

  lemma {:induction false} RunIsSound(cfg: Config, s: Sys, acts: seq<Action>)
    requires SysOk(cfg, s)
    ensures SysOk(cfg, Run(cfg, s, acts)) && Run(cfg, s, acts).tokens.tick == s.tokens.tick
    ensures Grows(s.users, s.tokens.byHash, Run(cfg, s, acts).users, Run(cfg, s, acts).tokens.byHash)
  {
    hide SysOk, Step, Grows;
    if acts == [] {
      SoundToStart(cfg, s);
    } else {
      var mid := Run(cfg, s, acts[..|acts| - 1]);
      RunIsSound(cfg, s, acts[..|acts| - 1]);
      StepIsSound(cfg, mid, acts[|acts| - 1]);
      SoundToStart(cfg, mid);
      SoundToStart(cfg, s);
      SoundToStart(cfg, Run(cfg, s, acts));
      GrowsIsTransitive(s, mid, Run(cfg, s, acts));
    }
  }

  lemma SoundToStart(cfg: Config, s: Sys)
    requires SysOk(cfg, s)
    ensures s.tokens.Mem? && Grows(s.users, s.tokens.byHash, s.users, s.tokens.byHash)
  {
  }

  lemma GrowsIsTransitive(a: Sys, b: Sys, c: Sys)
    requires a.tokens.Mem? && b.tokens.Mem? && c.tokens.Mem?
    requires Grows(a.users, a.tokens.byHash, b.users, b.tokens.byHash)
    requires Grows(b.users, b.tokens.byHash, c.users, c.tokens.byHash)
    ensures Grows(a.users, a.tokens.byHash, c.users, c.tokens.byHash)
  {
  }

  lemma {:induction false} RunSplits(cfg: Config, s: Sys, a: seq<Action>, b: seq<Action>)
    ensures Run(cfg, s, a + b) == Run(cfg, Run(cfg, s, a), b)
  {
    if b == [] {
      assert a + b == a;
    } else {
      assert (a + b)[..|a + b| - 1] == a + b[..|b| - 1];
      RunSplits(cfg, s, a, b[..|b| - 1]);
    }
  }

  /** The next step of a call, with no fault. */
  function Go(cid: nat, mint: Mint): Action {
    Advance(cid, NoFault, mint)
  }

  lemma RunOne(cfg: Config, s: Sys, x: Action)
    ensures Run(cfg, s, [x]) == Step(cfg, s, x)
  {
  }

  lemma RunTwo(cfg: Config, s: Sys, x: Action, y: Action)
    ensures Run(cfg, s, [x, y]) == Step(cfg, Step(cfg, s, x), y)
  {
    assert [x, y] == [x] + [y];
    RunSplits(cfg, s, [x], [y]);
    RunOne(cfg, s, x);
    RunOne(cfg, Step(cfg, s, x), y);
  }

  lemma {:induction false} RunFirst(cfg: Config, s: Sys, x: Action, acts: seq<Action>)
    ensures Run(cfg, s, [x] + acts) == Run(cfg, Step(cfg, s, x), acts)
  {
    RunSplits(cfg, s, [x], acts);
    RunOne(cfg, s, x);
  }

  /** In every interleaving of calls and faults a stored token keeps its id, hash, owner and times, and
      once revoked is never unrevoked, although Update writes a copy that may be stale. */
  lemma RevocationIsForGood(cfg: Config, tick: Tick, acts: seq<Action>, more: seq<Action>, h: string)
    requires h in TableOf(Run(cfg, Idle(tick), acts))
    ensures var t, t' := TableOf(Run(cfg, Idle(tick), acts)), TableOf(Run(cfg, Idle(tick), acts + more));
            h in t' && t[h].SameToken(t'[h]) && (t[h].revokedAt.Some? ==> t'[h].revokedAt.Some?)
  {
    RunIsSound(cfg, Idle(tick), acts);
    RunIsSound(cfg, Run(cfg, Idle(tick), acts), more);
    RunSplits(cfg, Idle(tick), acts, more);
  }

  /** A pair that a finished call returned names a stored row, for good, of the right owner. */
  lemma ReturnedSecretStaysStored(cfg: Config, tick: Tick, acts: seq<Action>, more: seq<Action>, cid: nat)
    requires cid in Run(cfg, Idle(tick), acts).calls && Run(cfg, Idle(tick), acts).calls[cid].pc.Done?
    requires AuthRuns.PairOf(Run(cfg, Idle(tick), acts).calls[cid].pc.reply).Some?
    ensures var c := Run(cfg, Idle(tick), acts).calls[cid];
            var pair := AuthRuns.PairOf(c.pc.reply).value;
            var t, h := TableOf(Run(cfg, Idle(tick), acts + more)), cfg.hashToken(pair.refreshToken);
            && h in t && t[h].expiresAt == Floor(tick, pair.refreshExpiresAt)
            && (c.pc.reply.Authenticated? ==> t[h].userId == c.pc.reply.user.id)
            && (c.pc.reply.Refreshed? ==> c.call.Refresh? && OwnedBy(t, cfg.hashToken(c.call.secret), t[h].userId))
  {
    RunIsSound(cfg, Idle(tick), acts);
    RunIsSound(cfg, Run(cfg, Idle(tick), acts), more);
    RunSplits(cfg, Idle(tick), acts, more);
    var s, s' := Run(cfg, Idle(tick), acts), Run(cfg, Idle(tick), acts + more);
    CallStaysOk(cfg, s.users, s.tokens.byHash, s'.users, s'.tokens.byHash, s.tokens.tick, s.calls[cid]);
  }

  // ---------------------------------------------------------------- Who can exchange a token

  predicate SuspendedIn(users: UserTable, id: Id) {
    id in users && users[id].status == Suspended
  }

  /** Not a Refresh of h, or one that has not read h while it was live, or one that is about to find its
      user suspended. */
  predicate Barred(cfg: Config, users: UserTable, c: InFlight, h: string) {
    IsRefreshOf(cfg, c, h) ==>
      && !c.exchanged
      && (c.pc.RefreshFind? || c.pc.RefreshRevokeAll? || c.pc.Done? ||
          (c.pc.RefreshFindUser? && SuspendedIn(users, c.pc.token.userId)))
  }

  /** The Refresh calls that read h before it was revoked and have not failed. */
  function Readers(cfg: Config, s: Sys, h: string): set<nat> {
    set cid | cid in s.calls && !Barred(cfg, s.users, s.calls[cid], h)
  }

  /** The Refresh calls of h that got as far as startSession. */
  function Exchangers(cfg: Config, s: Sys, h: string): set<nat> {
    set cid | cid in s.calls && IsRefreshOf(cfg, s.calls[cid], h) && s.calls[cid].exchanged
  }

  lemma NextStaysBarred(cfg: Config, s: Sys, cid: nat, f: Fault, mint: Mint, h: string)
    requires SysOk(cfg, s) && RevokedIn(s.tokens.byHash, h) && cid in s.calls
    requires Barred(cfg, s.users, s.calls[cid], h)
    ensures var (users', _, c') := Next(cfg, s.users, s.tokens, s.calls[cid], f, mint); Barred(cfg, users', c', h)
  {
    hide FindUserByEmail, NewRefreshToken, Create, Update, RevokeAllFor, CreateUser, SysOk;
    TablesAreKeyed(cfg, s);
    CallIsOk(cfg, s, cid);
  }

  lemma StaysBarred(cfg: Config, s: Sys, s': Sys, c: InFlight, h: string)
    requires s.tokens.Mem? && s'.tokens.Mem? && Grows(s.users, s.tokens.byHash, s'.users, s'.tokens.byHash)
    requires Barred(cfg, s.users, c, h)
    ensures Barred(cfg, s'.users, c, h)
  {
  }

  lemma BarredStepsStayBarred(cfg: Config, s: Sys, a: Action, h: string)
    requires SysOk(cfg, s) && RevokedIn(s.tokens.byHash, h)
    ensures Readers(cfg, Step(cfg, s, a), h) <= Readers(cfg, s, h)
  {
    hide SysOk, Next, Barred, Grows, Start;
    var s' := Step(cfg, s, a);
    StepIsSound(cfg, s, a);
    SoundToStart(cfg, s);
    SoundToStart(cfg, s');
    forall cid | cid in s'.calls && (cid in s.calls ==> Barred(cfg, s.users, s.calls[cid], h))
      ensures Barred(cfg, s'.users, s'.calls[cid], h)
    {
      if cid !in s.calls {
        StartsBarred(cfg, s'.users, a.call, a.now, a.mint, h);
      } else if a.Advance? && a.cid == cid {
        NextStaysBarred(cfg, s, cid, a.fault, a.mint, h);
      } else {
        StaysBarred(cfg, s, s', s.calls[cid], h);
      }
    }
  }

  lemma {:induction false} ReadersOnlyShrink(cfg: Config, s: Sys, acts: seq<Action>, h: string)
    requires SysOk(cfg, s) && RevokedIn(s.tokens.byHash, h)
    ensures Readers(cfg, Run(cfg, s, acts), h) <= Readers(cfg, s, h)
  {
    if acts != [] {
      hide SysOk, Step, Readers;
      var mid := Run(cfg, s, acts[..|acts| - 1]);
      ReadersOnlyShrink(cfg, s, acts[..|acts| - 1], h);
      RunIsSound(cfg, s, acts[..|acts| - 1]);
      SoundToStart(cfg, s);
      SoundToStart(cfg, mid);
      BarredStepsStayBarred(cfg, mid, acts[|acts| - 1], h);
    }
  }

  lemma StartsBarred(cfg: Config, users: UserTable, call: Call, now: Time, mint: Mint, h: string)
    ensures Barred(cfg, users, Start(cfg, call, now, mint), h)
  {
  }

  /** Once h is revoked, only calls that had read it before can still exchange it: a Refresh that reads
      it afterwards never reaches startSession, and the exchanges over the whole run are at most the
      Refresh calls that had read it by then. */
  lemma OnlyEarlierReadersExchange(cfg: Config, s: Sys, acts: seq<Action>, h: string)
    requires SysOk(cfg, s) && RevokedIn(s.tokens.byHash, h)
    ensures Exchangers(cfg, Run(cfg, s, acts), h) <= Readers(cfg, s, h)
    ensures |Exchangers(cfg, Run(cfg, s, acts), h)| <= |Readers(cfg, s, h)|
  {
    ReadersOnlyShrink(cfg, s, acts, h);
    SubsetIsSmaller(Exchangers(cfg, Run(cfg, s, acts), h), Readers(cfg, s, h));
  }

  // ---------------------------------------------------------------- One exchange when calls do not overlap

  /** Calls between reading h and writing its revocation. */
  function Between(cfg: Config, s: Sys, h: string): set<nat> {
    set cid | cid in s.calls && IsRefreshOf(cfg, s.calls[cid], h) &&
              (s.calls[cid].pc.RefreshFindUser? || s.calls[cid].pc.RefreshUpdate?)
  }

  ghost predicate NoOverlap(cfg: Config, tick: Tick, acts: seq<Action>, h: string) {
    forall k :: 0 <= k <= |acts| ==> |Between(cfg, Run(cfg, Idle(tick), acts[..k]), h)| <= 1
  }

  lemma PrefixHasNoOverlap(cfg: Config, tick: Tick, acts: seq<Action>, h: string, n: nat)
    requires NoOverlap(cfg, tick, acts, h) && n <= |acts|
    ensures NoOverlap(cfg, tick, acts[..n], h)
    ensures |Between(cfg, Run(cfg, Idle(tick), acts[..n]), h)| <= 1
  {
    forall k | 0 <= k <= n ensures |Between(cfg, Run(cfg, Idle(tick), acts[..n][..k]), h)| <= 1 {
      assert acts[..n][..k] == acts[..k];
    }
  }

  lemma NextEntersBetween(cfg: Config, s: Sys, cid: nat, f: Fault, mint: Mint, h: string)
    requires SysOk(cfg, s) && cid in s.calls && IsRefreshOf(cfg, s.calls[cid], h)
    ensures var c, c' := s.calls[cid], Next(cfg, s.users, s.tokens, s.calls[cid], f, mint).2;
            && c'.call == c.call
            && (c'.pc.RefreshFindUser? || c'.pc.RefreshUpdate? ==>
                  c.pc.RefreshFindUser? || c.pc.RefreshUpdate? || !RevokedIn(s.tokens.byHash, h))
            && (c'.exchanged ==> c.exchanged || c.pc.RefreshUpdate?)
            && (c'.exchanged && !c.exchanged ==> !(c'.pc.RefreshFindUser? || c'.pc.RefreshUpdate?))
  {
    hide FindUserByEmail, NewRefreshToken, Create, Update, RevokeAllFor, CreateUser, SysOk;
    TablesAreKeyed(cfg, s);
    CallIsOk(cfg, s, cid);
  }

  lemma OthersKeepSets(cfg: Config, s: Sys, a: Action, h: string)
    requires a.Advance? ==> a.cid !in s.calls || !IsRefreshOf(cfg, s.calls[a.cid], h)
    ensures Exchangers(cfg, Step(cfg, s, a), h) == Exchangers(cfg, s, h)
    ensures Between(cfg, Step(cfg, s, a), h) == Between(cfg, s, h)
  {
    if a.Advance? && a.cid in s.calls {
      CallNeverChanges(cfg, s, a.cid, a.fault, a.mint);
    }
    hide Next;
  }

  lemma RefreshMovesOnlyItself(cfg: Config, s: Sys, a: Action, h: string)
    requires SysOk(cfg, s) && a.Advance? && a.cid in s.calls && IsRefreshOf(cfg, s.calls[a.cid], h)
    ensures var e, b := Exchangers(cfg, s, h), Between(cfg, s, h);
            var e', b' := Exchangers(cfg, Step(cfg, s, a), h), Between(cfg, Step(cfg, s, a), h);
            && e' <= e + {a.cid} && b' <= b + {a.cid}
            && (a.cid in e' ==> a.cid in e || (a.cid in b && a.cid !in b'))
            && (a.cid in b' ==> a.cid in b || !RevokedIn(s.tokens.byHash, h))
            && (forall d :: d in e ==> RevokedIn(s.tokens.byHash, h))
  {
    NextEntersBetween(cfg, s, a.cid, a.fault, a.mint, h);
    forall d | d in Exchangers(cfg, s, h) ensures RevokedIn(s.tokens.byHash, h) {
      assert CallOk(cfg, s.users, s.tokens.byHash, s.tokens.tick, s.calls[d]);
    }
    hide Next, CallOk, SysOk;
  }

  lemma AtMostOneStep(cfg: Config, s: Sys, a: Action, h: string)
    requires SysOk(cfg, s) && |Between(cfg, s, h)| <= 1
    requires |Exchangers(cfg, s, h)| <= 1 && (Exchangers(cfg, s, h) != {} ==> Between(cfg, s, h) == {})
    ensures var s' := Step(cfg, s, a);
            |Exchangers(cfg, s', h)| <= 1 && (Exchangers(cfg, s', h) != {} ==> Between(cfg, s', h) == {})
  {
    hide Step, SysOk, Exchangers, Between;
    var s' := Step(cfg, s, a);
    var e, b, e', b' := Exchangers(cfg, s, h), Between(cfg, s, h), Exchangers(cfg, s', h), Between(cfg, s', h);
    if a.Advance? && a.cid in s.calls && IsRefreshOf(cfg, s.calls[a.cid], h) {
      RefreshMovesOnlyItself(cfg, s, a, h);
      if a.cid in e' && a.cid !in e {
        SingleMember(b, a.cid);
        assert e' == {a.cid} && b' == {};
      } else {
        SubsetIsSmaller(e', e);
      }
    } else {
      OthersKeepSets(cfg, s, a, h);
    }
  }

  lemma CallNeverChanges(cfg: Config, s: Sys, cid: nat, f: Fault, mint: Mint)
    requires cid in s.calls
    ensures Next(cfg, s.users, s.tokens, s.calls[cid], f, mint).2.call == s.calls[cid].call
  {
  }

  /** If no two Refresh calls of h are ever between reading it and revoking it, it is exchanged at most
      once. */
  lemma {:induction false} ExchangedAtMostOnceWithoutOverlap(cfg: Config, tick: Tick, acts: seq<Action>, h: string)
    requires NoOverlap(cfg, tick, acts, h)
    ensures |Exchangers(cfg, Run(cfg, Idle(tick), acts), h)| <= 1
    ensures Exchangers(cfg, Run(cfg, Idle(tick), acts), h) != {} ==> Between(cfg, Run(cfg, Idle(tick), acts), h) == {}
  {
    if acts != [] {
      var n := |acts| - 1;
      PrefixHasNoOverlap(cfg, tick, acts, h, n);
      ExchangedAtMostOnceWithoutOverlap(cfg, tick, acts[..n], h);
      RunIsSound(cfg, Idle(tick), acts[..n]);
      assert |Between(cfg, Run(cfg, Idle(tick), acts[..n]), h)| <= 1;
      hide Step, SysOk, Exchangers, Between;
      AtMostOneStep(cfg, Run(cfg, Idle(tick), acts[..n]), acts[n], h);
    }
  }

  // ---------------------------------------------------------------- Reuse

  /** After the RevokeAllForUser of a reused token took effect, every row that user had is revoked in all
      later states, so whatever is unrevoked later was inserted later; other users' rows are as before. */
  lemma ReuseEndsAllSessions(cfg: Config, s: Sys, cid: nat, f: Fault, mint: Mint, acts: seq<Action>)
    requires SysOk(cfg, s) && cid in s.calls && s.calls[cid].pc.RefreshRevokeAll? && !f.Lost?
    ensures var t, u := TableOf(s), s.calls[cid].pc.token.userId;
            var s1 := Step(cfg, s, Advance(cid, f, mint));
            var t1, t2 := TableOf(s1), TableOf(Run(cfg, s1, acts));
            && (forall h :: h in t && t[h].userId == u ==> RevokedIn(t2, h))
            && (forall h :: h in t2 && t2[h].userId == u && t2[h].revokedAt.None? ==> h !in t)
            && (forall h :: h in t && t[h].userId != u ==> h in t1 && t1[h] == t[h])
            && t1.Keys == t.Keys
            && s1.calls[cid].pc.Done? && s1.calls[cid].pc.reply.Failed?
  {
    StepIsSound(cfg, s, Advance(cid, f, mint));
    RunIsSound(cfg, Step(cfg, s, Advance(cid, f, mint)), acts);
  }
}
