/** The step layer against the use cases: a call that runs without interruption does what Auth says. */
module StepRefinement {
  import opened Domain
  import opened Tables
  import opened Stores
  import opened Auth
  import opened Steps
  import opened StepSafety

  // ---------------------------------------------------------------- Uninterrupted calls

  /** The fault that e foresees for the next outside call. */
  function FaultAt(pc: Pc, f: Faults): Fault {
    match pc
    case RegisterCreate(_) => f.user
    case LoginFind(_, _) => f.user
    case RefreshFindUser(_) => f.user
    case SuspendFind(_) => f.user
    case RefreshFind(_) => f.find
    case LogoutFind(_) => f.find
    case RefreshRevokeAll(_) => f.write
    case RefreshUpdate(_, _) => f.write
    case LogoutUpdate(_) => f.write
    case SuspendUpdate(_) => f.write
    case SessionCreate(_) => f.create
    case SessionIssue(_, _, _) => f.issue
    case Done(_) => NoFault
  }

  /** k steps of one call with no other call in between. */
  ghost function Alone(cfg: Config, users: UserTable, tokens: TokenStore, c: InFlight, e: Event, k: nat)
    : (UserTable, TokenStore, InFlight)
    decreases k
  {
    if k == 0 then (users, tokens, c)
    else
      var (users', tokens', c') := Next(cfg, users, tokens, c, FaultAt(c.pc, e.faults), e.mint);
      Alone(cfg, users', tokens', c', e, k - 1)
  }

  /** A store of that resolution keeps whatever a call at now writes as it is. */
  predicate OnClock(cfg: Config, tick: Tick, now: Time) {
    OnTick(tick, now) && OnTick(tick, now + cfg.ttl)
  }

  ghost predicate Agrees(cfg: Config, s: Store, tick: Tick, e: Event, end: (UserTable, TokenStore, InFlight)) {
    var (s', reply) := Do(cfg, s, e);
    end.0 == s'.users && end.1 == Mem(s'.tokens, tick) && end.2.pc == Done(reply)
  }

  lemma DoneStays(cfg: Config, users: UserTable, tokens: TokenStore, c: InFlight, e: Event, k: nat)
    requires c.pc.Done?
    ensures Alone(cfg, users, tokens, c, e, k) == (users, tokens, c)
  {
  }

  /** startSession takes two steps. */
  lemma SessionAlone(cfg: Config, users: UserTable, t: TokenTable, tick: Tick,
                     c: InFlight, user: UserRow, e: Event, k: nat)
    requires c.pc == SessionCreate(user) && k >= 2 && c.now == e.now && IdUnused(t, e.mint.tokenId)
    requires OnClock(cfg, tick, e.now)
    ensures var (t', pair) := StartSession(cfg, t, user, e.now, e.mint, e.faults);
            var end := Alone(cfg, users, Mem(t, tick), c, e, k);
            && end.0 == users && end.1 == Mem(t', tick)
            && end.2.pc == Done(if pair.Ok? then SessionReply(c.call, user, pair.value) else Failed(pair.error))
  {
    var (users1, tokens1, c1) := Next(cfg, users, Mem(t, tick), c, e.faults.create, e.mint);
    if c1.pc.Done? {
      DoneStays(cfg, users1, tokens1, c1, e, k - 1);
    } else {
      var (users2, tokens2, c2) := Next(cfg, users1, tokens1, c1, e.faults.issue, e.mint);
      DoneStays(cfg, users2, tokens2, c2, e, k - 2);
    }
  }

  lemma RegisterAlone(cfg: Config, s: Store, tick: Tick, e: Event)
    requires OnClock(cfg, tick, e.now) && e.call.Register?
    requires e.mint.userId !in s.users && IdUnused(s.tokens, e.mint.tokenId)
    ensures Agrees(cfg, s, tick, e, Alone(cfg, s.users, Mem(s.tokens, tick), Start(cfg, e.call, e.now, e.mint), e, 5))
  {
    var c := Start(cfg, e.call, e.now, e.mint);
    if c.pc.Done? {
      DoneStays(cfg, s.users, Mem(s.tokens, tick), c, e, 5);
    } else {
      var (users1, tokens1, c1) := Next(cfg, s.users, Mem(s.tokens, tick), c, e.faults.user, e.mint);
      if c1.pc.Done? {
        DoneStays(cfg, users1, tokens1, c1, e, 4);
      } else {
        SessionAlone(cfg, users1, s.tokens, tick, c1, c.pc.user, e, 4);
      }
    }
  }

  lemma LoginAlone(cfg: Config, s: Store, tick: Tick, e: Event)
    requires OnClock(cfg, tick, e.now) && e.call.Login? && IdUnused(s.tokens, e.mint.tokenId)
    ensures Agrees(cfg, s, tick, e, Alone(cfg, s.users, Mem(s.tokens, tick), Start(cfg, e.call, e.now, e.mint), e, 5))
  {
    var c := Start(cfg, e.call, e.now, e.mint);
    if c.pc.Done? {
      DoneStays(cfg, s.users, Mem(s.tokens, tick), c, e, 5);
    } else {
      var (users1, tokens1, c1) := Next(cfg, s.users, Mem(s.tokens, tick), c, e.faults.user, e.mint);
      if c1.pc.Done? {
        DoneStays(cfg, users1, tokens1, c1, e, 4);
      } else {
        SessionAlone(cfg, users1, s.tokens, tick, c1, c1.pc.user, e, 4);
      }
    }
  }

  lemma RefreshAlone(cfg: Config, s: Store, tick: Tick, e: Event)
    requires OnClock(cfg, tick, e.now) && e.call.Refresh?
    requires AuthRuns.TokensKeyed(s.tokens) && IdUnused(s.tokens, e.mint.tokenId)
    ensures Agrees(cfg, s, tick, e, Alone(cfg, s.users, Mem(s.tokens, tick), Start(cfg, e.call, e.now, e.mint), e, 5))
  {
    var c := Start(cfg, e.call, e.now, e.mint);
    var (users1, tokens1, c1) := Next(cfg, s.users, Mem(s.tokens, tick), c, e.faults.find, e.mint);
    if c1.pc.Done? {
      DoneStays(cfg, users1, tokens1, c1, e, 4);
    } else if c1.pc.RefreshRevokeAll? {
      var (users2, tokens2, c2) := Next(cfg, users1, tokens1, c1, e.faults.write, e.mint);
      DoneStays(cfg, users2, tokens2, c2, e, 3);
    } else {
      var (users2, tokens2, c2) := Next(cfg, users1, tokens1, c1, e.faults.user, e.mint);
      if c2.pc.Done? {
        DoneStays(cfg, users2, tokens2, c2, e, 3);
      } else {
        var (users3, tokens3, c3) := Next(cfg, users2, tokens2, c2, e.faults.write, e.mint);
        assert Alone(cfg, users2, tokens2, c2, e, 3) == Alone(cfg, users3, tokens3, c3, e, 2);
        if c3.pc.Done? {
          DoneStays(cfg, users3, tokens3, c3, e, 2);
        } else {
          SessionAlone(cfg, users3, tokens3.byHash, tick, c3, c3.pc.user, e, 2);
        }
      }
    }
  }

  lemma OthersAlone(cfg: Config, s: Store, tick: Tick, e: Event)
    requires OnClock(cfg, tick, e.now)
    requires e.call.Logout? || e.call.Suspend?
    ensures Agrees(cfg, s, tick, e, Alone(cfg, s.users, Mem(s.tokens, tick), Start(cfg, e.call, e.now, e.mint), e, 5))
  {
    var c := Start(cfg, e.call, e.now, e.mint);
    var (users1, tokens1, c1) := Next(cfg, s.users, Mem(s.tokens, tick), c, FaultAt(c.pc, e.faults), e.mint);
    if c1.pc.Done? {
      DoneStays(cfg, users1, tokens1, c1, e, 4);
    } else {
      var (users2, tokens2, c2) := Next(cfg, users1, tokens1, c1, e.faults.write, e.mint);
      DoneStays(cfg, users2, tokens2, c2, e, 3);
    }
  }

  lemma FiveStepsSuffice(cfg: Config, s: Store, tick: Tick, e: Event)
    requires OnClock(cfg, tick, e.now) && AuthRuns.TokensKeyed(s.tokens) && IdUnused(s.tokens, e.mint.tokenId)
    requires e.call.Register? ==> e.mint.userId !in s.users
    ensures Agrees(cfg, s, tick, e, Alone(cfg, s.users, Mem(s.tokens, tick), Start(cfg, e.call, e.now, e.mint), e, 5))
  {
    hide Agrees, Alone, Start;
    match e.call
    case Register(_, _) => RegisterAlone(cfg, s, tick, e);
    case Login(_, _) => LoginAlone(cfg, s, tick, e);
    case Refresh(_) => RefreshAlone(cfg, s, tick, e);
    case _ => OthersAlone(cfg, s, tick, e);
  }

  lemma OneStepAlone(cfg: Config, s: Sys, cid: nat, e: Event)
    requires cid in s.calls
    ensures var c := s.calls[cid];
            var (users, tokens, c') := Next(cfg, s.users, s.tokens, c, FaultAt(c.pc, e.faults), e.mint);
            Step(cfg, s, Advance(cid, FaultAt(c.pc, e.faults), e.mint)) == Sys(users, tokens, s.calls[cid := c'])
  {
    hide Next, FaultAt;
  }

  lemma OverwrittenTwice(calls: map<nat, InFlight>, cid: nat, c: InFlight, d: InFlight)
    ensures calls[cid := c][cid := d] == calls[cid := d]
  {
  }

  lemma {:induction false} AloneIsRun(cfg: Config, s: Sys, cid: nat, e: Event, k: nat) returns (acts: seq<Action>)
    requires cid in s.calls
    ensures |acts| == k && forall i :: 0 <= i < k ==> acts[i].Advance? && acts[i].cid == cid
    ensures var end := Alone(cfg, s.users, s.tokens, s.calls[cid], e, k);
            Run(cfg, s, acts) == Sys(end.0, end.1, s.calls[cid := end.2])
    decreases k
  {
    if k == 0 {
      acts := [];
      assert s.calls[cid := s.calls[cid]] == s.calls;
    } else {
      hide Next, Step, FaultAt;
      var first := Advance(cid, FaultAt(s.calls[cid].pc, e.faults), e.mint);
      var s1 := Step(cfg, s, first);
      OneStepAlone(cfg, s, cid, e);
      var rest := AloneIsRun(cfg, s1, cid, e, k - 1);
      acts := [first] + rest;
      RunFirst(cfg, s, first, rest);
      OverwrittenTwice(s.calls, cid, s1.calls[cid], Alone(cfg, s1.users, s1.tokens, s1.calls[cid], e, k - 1).2);
    }
  }

  /** From any state, with other calls in flight, a call that is begun and then advanced without
      interruption ends within six steps, with the tables and the reply of the use case as a whole, under
      every combination of faults; and no other call notices anything but the tables. The store keeps the
      call's times as they are, which in memory it always does. */
  lemma UninterruptedIsAtomic(cfg: Config, s: Sys, cid: nat, e: Event) returns (acts: seq<Action>)
    requires SysOk(cfg, s) && cid !in s.calls && OnClock(cfg, s.tokens.tick, e.now)
    requires IdUnused(s.tokens.byHash, e.mint.tokenId) && (e.call.Register? ==> e.mint.userId !in s.users)
    ensures |acts| == 6 && acts[0] == Begin(cid, e.call, e.now, e.mint)
    ensures forall i :: 0 < i < 6 ==> acts[i].Advance? && acts[i].cid == cid
    ensures var (s', reply) := Do(cfg, Store(s.users, s.tokens.byHash), e);
            var end := Run(cfg, s, acts);
            && end.users == s'.users && end.tokens == Mem(s'.tokens, s.tokens.tick)
            && cid in end.calls && end.calls[cid].pc == Done(reply)
            && end.calls == s.calls[cid := end.calls[cid]]
  {
    FiveStepsSuffice(cfg, Store(s.users, s.tokens.byHash), s.tokens.tick, e);
    var first, c := Begin(cid, e.call, e.now, e.mint), Start(cfg, e.call, e.now, e.mint);
    assert Step(cfg, s, first) == s.(calls := s.calls[cid := c]);
    hide Alone, Run, Start, Do, SysOk, OnClock, Step;
    var rest := AloneIsRun(cfg, Step(cfg, s, first), cid, e, 5);
    acts := [first] + rest;
    RunFirst(cfg, s, first, rest);
    OverwrittenTwice(s.calls, cid, c, Alone(cfg, s.users, s.tokens, c, e, 5).2);
  }
}
