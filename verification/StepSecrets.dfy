/** What becomes of the secret of each stored row when calls interleave. */
module StepSecrets {
  import opened Domain
  import opened Tables
  import opened Auth
  import opened Steps
  import opened StepSafety
  import opened StepLimits

  /** a is the Create that inserts h. */
  ghost predicate Inserts(cfg: Config, s: Sys, a: Action, h: string) {
    && a.Advance? && a.cid in s.calls && s.calls[a.cid].pc.SessionCreate?
    && a.mint.secret.Some? && cfg.hashToken(a.mint.secret.value) == h
    && h !in TableOf(s) && h in TableOf(Step(cfg, s, a))
  }

  predicate Waiting(cfg: Config, c: InFlight, h: string) {
    c.pc.SessionIssue? && cfg.hashToken(c.pc.secret) == h
  }

  predicate Returned(cfg: Config, c: InFlight, h: string) {
    c.pc.Done? && AuthRuns.PairOf(c.pc.reply).Some? &&
    cfg.hashToken(AuthRuns.PairOf(c.pc.reply).value.refreshToken) == h
  }

  predicate GaveUp(c: InFlight) {
    c.pc == Done(Failed(Infrastructure))
  }

  /** a is the failure of the issuer for call cid. */
  predicate IssuerFails(s: Sys, a: Action, cid: nat) {
    a.Advance? && a.cid == cid && cid in s.calls && s.calls[cid].pc.SessionIssue? && !a.fault.NoFault?
  }

  ghost predicate IssuerFailed(cfg: Config, s: Sys, acts: seq<Action>, k: nat, cid: nat) {
    exists j :: k < j < |acts| && IssuerFails(Run(cfg, s, acts[..j]), acts[j], cid)
  }

  /** After the Create with that fault, which took effect: the issuer has not answered, or it worked and the
      secret was returned, or it failed, or Create reported an error. Exactly one of these is so. */
  predicate Fate(cfg: Config, c: InFlight, h: string, fault: Fault, issuerFailed: bool) {
    if fault.NoFault? then
      (if issuerFailed then GaveUp(c) else Waiting(cfg, c, h) || Returned(cfg, c, h))
    else
      fault.Torn? && GaveUp(c) && !issuerFailed
  }

  ghost predicate OnlyHolder(cfg: Config, s: Sys, cid: nat, h: string) {
    forall d :: d in s.calls && (Waiting(cfg, s.calls[d], h) || Returned(cfg, s.calls[d], h)) ==> d == cid
  }

  lemma InsertionIsByCreate(cfg: Config, s: Sys, a: Action, h: string)
    requires SysOk(cfg, s) && h !in TableOf(s) && h in TableOf(Step(cfg, s, a))
    ensures Inserts(cfg, s, a, h)
    ensures Fate(cfg, Step(cfg, s, a).calls[a.cid], h, a.fault, false)
  {
    if a.Advance? && a.cid in s.calls && !s.calls[a.cid].pc.SessionCreate? {
      OthersInsertNothing(cfg, s, a.cid, a.fault, a.mint);
    }
  }

  lemma HoldersHaveRows(cfg: Config, s: Sys, d: nat, h: string)
    requires SysOk(cfg, s) && d in s.calls && (Waiting(cfg, s.calls[d], h) || Returned(cfg, s.calls[d], h))
    ensures h in TableOf(s)
  {
    CallIsOk(cfg, s, d);
  }

  /** Only a Create makes a holder, and only of the row it inserts. */
  lemma NextHolds(cfg: Config, s: Sys, a: Action, h: string)
    requires SysOk(cfg, s) && a.Advance? && a.cid in s.calls && h in TableOf(s)
    requires var c' := Step(cfg, s, a).calls[a.cid]; Waiting(cfg, c', h) || Returned(cfg, c', h)
    ensures Waiting(cfg, s.calls[a.cid], h) || Returned(cfg, s.calls[a.cid], h)
  {
    hide FindUserByEmail, SysOk, Update, RevokeAllFor, CreateUser, UpdateUser, Find;
    TablesAreKeyed(cfg, s);
  }

  lemma FateAdvances(cfg: Config, s: Sys, a: Action, cid: nat, h: string, fault: Fault, issuerFailed: bool)
    requires s.tokens.Mem? && cid in s.calls && Fate(cfg, s.calls[cid], h, fault, issuerFailed)
    ensures cid in Step(cfg, s, a).calls
    ensures Fate(cfg, Step(cfg, s, a).calls[cid], h, fault, issuerFailed || IssuerFails(s, a, cid))
  {
  }

  lemma OnlyHolderStays(cfg: Config, s: Sys, a: Action, cid: nat, h: string)
    requires SysOk(cfg, s) && h in TableOf(s) && OnlyHolder(cfg, s, cid, h)
    ensures OnlyHolder(cfg, Step(cfg, s, a), cid, h)
  {
    var s' := Step(cfg, s, a);
    if a.Begin? {
      StartsEmpty(cfg, a.call, a.now, a.mint, h);
    }
    hide SysOk, Next, Start, Waiting, Returned;
    forall d | d in s'.calls && (Waiting(cfg, s'.calls[d], h) || Returned(cfg, s'.calls[d], h)) ensures d == cid {
      if a.Advance? && a.cid == d && d in s.calls {
        NextHolds(cfg, s, a, h);
      }
    }
  }

  lemma StartsEmpty(cfg: Config, call: Call, now: Time, mint: Mint, h: string)
    ensures !Waiting(cfg, Start(cfg, call, now, mint), h) && !Returned(cfg, Start(cfg, call, now, mint), h)
  {
  }

  lemma IssuerFailedSoFar(cfg: Config, s: Sys, acts: seq<Action>, k: nat, cid: nat)
    requires k < |acts| - 1
    ensures var n := |acts| - 1;
            IssuerFailed(cfg, s, acts, k, cid) <==>
            IssuerFailed(cfg, s, acts[..n], k, cid) || IssuerFails(Run(cfg, s, acts[..n]), acts[n], cid)
  {
    hide Run, IssuerFails;
    var n := |acts| - 1;
    assert forall j :: 0 <= j < n ==> acts[..n][..j] == acts[..j] && acts[..n][j] == acts[j];
    if IssuerFailed(cfg, s, acts[..n], k, cid) {
      var j :| k < j < n && IssuerFails(Run(cfg, s, acts[..n][..j]), acts[..n][j], cid);
      assert IssuerFails(Run(cfg, s, acts[..j]), acts[j], cid);
    }
    if j :| k < j < |acts| && IssuerFails(Run(cfg, s, acts[..j]), acts[j], cid) && j < n {
      assert IssuerFails(Run(cfg, s, acts[..n][..j]), acts[..n][j], cid);
    }
  }

  /** Every row was inserted by one Create of one call. Its secret was returned if Create reported success
      and the issuer has worked, and by that call only; otherwise that call still waits for the issuer, or
      failed because the issuer did, or because Create took effect and reported an error. */
  lemma {:induction false} EveryRowHasItsCall(cfg: Config, tick: Tick, acts: seq<Action>, h: string) returns (k: nat)
    requires h in TableOf(Run(cfg, Idle(tick), acts))
    ensures k < |acts| && Inserts(cfg, Run(cfg, Idle(tick), acts[..k]), acts[k], h)
    ensures var cid, s := acts[k].cid, Run(cfg, Idle(tick), acts);
            && cid in s.calls && OnlyHolder(cfg, s, cid, h)
            && Fate(cfg, s.calls[cid], h, acts[k].fault, IssuerFailed(cfg, Idle(tick), acts, k, cid))
  {
    var n := |acts| - 1;
    var mid, a := Run(cfg, Idle(tick), acts[..n]), acts[n];
    RunIsSound(cfg, Idle(tick), acts[..n]);
    hide Step, SysOk, Fate, Grows, IssuerFails;
    if h in TableOf(mid) {
      k := EveryRowHasItsCall(cfg, tick, acts[..n], h);
      assert acts[..n][..k] == acts[..k] && acts[..n][k] == acts[k];
      SoundToStart(cfg, mid);
      FateAdvances(cfg, mid, a, acts[k].cid, h, acts[k].fault,
                   IssuerFailed(cfg, Idle(tick), acts[..n], k, acts[k].cid));
      IssuerFailedSoFar(cfg, Idle(tick), acts, k, acts[k].cid);
      OnlyHolderStays(cfg, mid, a, acts[k].cid, h);
    } else {
      k := n;
      InsertionIsByCreate(cfg, mid, a, h);
      FirstHolder(cfg, mid, a, h);
    }
  }

  lemma FirstHolder(cfg: Config, s: Sys, a: Action, h: string)
    requires SysOk(cfg, s) && Inserts(cfg, s, a, h)
    ensures a.cid in Step(cfg, s, a).calls && OnlyHolder(cfg, Step(cfg, s, a), a.cid, h)
  {
    var s' := Step(cfg, s, a);
    hide SysOk, Next, Waiting, Returned;
    forall d | d in s'.calls && (Waiting(cfg, s'.calls[d], h) || Returned(cfg, s'.calls[d], h)) ensures d == a.cid {
      if d != a.cid {
        HoldersHaveRows(cfg, s, d, h);
      }
    }
  }
}
