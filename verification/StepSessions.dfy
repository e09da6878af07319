/** Session families when calls interleave: one unrevoked token each as long as no two Refresh calls of
    one token overlap, and two of them in a schedule where they do. */
module StepSessions {
  import opened Sets
  import opened Domain
  import opened Tables
  import opened Auth
  import opened AuthSessions
  import opened Steps
  import opened StepSafety
  import opened StepLimits

  // ---------------------------------------------------------------- Families

  /** The family of each token after acts, given those of the tokens in s. A row belongs to the call that
      inserted it. */
  ghost function Lineage(cfg: Config, s: Sys, fam: map<string, string>, acts: seq<Action>): map<string, string> {
    if acts == [] then fam
    else
      var n := |acts| - 1;
      NextLineage(cfg, Run(cfg, s, acts[..n]), Lineage(cfg, s, fam, acts[..n]), acts[n])
  }

  ghost function NextLineage(cfg: Config, s: Sys, fam: map<string, string>, a: Action): map<string, string> {
    if a.Advance? && a.cid in s.calls then NextFamilies(cfg, fam, s.calls[a.cid].call, TableOf(Step(cfg, s, a)))
    else fam
  }

  // ---------------------------------------------------------------- One open token per family

  /** A Refresh of h that has read it live and has not yet inserted its successor. */
  predicate Pending(cfg: Config, c: InFlight, h: string) {
    IsRefreshOf(cfg, c, h) && (c.pc.RefreshFindUser? || c.pc.RefreshUpdate? || c.pc.SessionCreate?)
  }

  /** Unrevoked, or about to have a successor. */
  ghost predicate Open(cfg: Config, s: Sys, h: string) {
    Live(TableOf(s), h) || exists cid :: cid in s.calls && Pending(cfg, s.calls[cid], h)
  }

  ghost predicate OneOpen(cfg: Config, s: Sys, fam: map<string, string>) {
    forall g, h :: Open(cfg, s, g) && Open(cfg, s, h) && g in fam && h in fam && fam[g] == fam[h] ==> g == h
  }

  lemma NextStartsPending(cfg: Config, s: Sys, cid: nat, f: Fault, mint: Mint, h: string)
    requires SysOk(cfg, s) && cid in s.calls
    requires Pending(cfg, Next(cfg, s.users, s.tokens, s.calls[cid], f, mint).2, h)
    ensures Pending(cfg, s.calls[cid], h) || Live(s.tokens.byHash, h)
  {
    hide FindUserByEmail, NewRefreshToken, Create, Update, RevokeAllFor, CreateUser, SysOk;
    TablesAreKeyed(cfg, s);
    CallIsOk(cfg, s, cid);
  }

  /** A token opens only when it is inserted. */
  lemma NothingReopens(cfg: Config, s: Sys, a: Action, h: string)
    requires SysOk(cfg, s) && h in s.tokens.byHash && Open(cfg, Step(cfg, s, a), h)
    ensures Open(cfg, s, h)
  {
    var s' := Step(cfg, s, a);
    StepIsSound(cfg, s, a);
    if Live(TableOf(s'), h) {
      assert Live(TableOf(s), h);
    } else {
      hide SysOk, Next;
      var cid :| cid in s'.calls && Pending(cfg, s'.calls[cid], h);
      if a.Advance? && a.cid == cid && cid in s.calls {
        NextStartsPending(cfg, s, cid, a.fault, a.mint, h);
      }
    }
  }

  /** What the absence of overlaps gives for one token. */
  ghost predicate Single(cfg: Config, s: Sys, h: string) {
    |Exchangers(cfg, s, h)| <= 1 && (Exchangers(cfg, s, h) != {} ==> Between(cfg, s, h) == {})
  }

  lemma PendingIsCounted(cfg: Config, s: Sys, cid: nat, h: string)
    requires SysOk(cfg, s) && cid in s.calls && Pending(cfg, s.calls[cid], h)
    ensures cid in Exchangers(cfg, s, h) || cid in Between(cfg, s, h)
  {
    CallIsOk(cfg, s, cid);
  }

  /** The call that inserts the successor of a token closes it. */
  lemma SuccessorCloses(cfg: Config, s: Sys, a: Action, h: string)
    requires SysOk(cfg, s) && a.Advance? && a.cid in s.calls && s.calls[a.cid].pc.SessionCreate?
    requires IsRefreshOf(cfg, s.calls[a.cid], h) && Single(cfg, s, h) && TableOf(Step(cfg, s, a)) != TableOf(s)
    ensures Open(cfg, s, h) && h in TableOf(s) && !Open(cfg, Step(cfg, s, a), h)
  {
    var s', cid := Step(cfg, s, a), a.cid;
    CallIsOk(cfg, s, cid);
    assert !s'.calls[cid].pc.SessionCreate?;
    assert cid in Exchangers(cfg, s, h);
    SingleMember(Exchangers(cfg, s, h), cid);
    StepIsSound(cfg, s, a);
    forall d | d in s'.calls ensures !Pending(cfg, s'.calls[d], h) {
      if d != cid && Pending(cfg, s.calls[d], h) {
        PendingIsCounted(cfg, s, d, h);
        assert false;
      }
    }
  }

  /** A new token may join a family that has just lost its open one, or begin its own. */
  lemma InsertionKeepsOneOpen(cfg: Config, s: Sys, s': Sys, fam: map<string, string>, h: string, root: string)
    requires OneOpen(cfg, s, fam) && h !in fam
    requires forall g :: g in fam && Open(cfg, s', g) ==> Open(cfg, s, g) && fam[g] != root
    ensures OneOpen(cfg, s', fam[h := root])
  {
    hide Open;
  }

  lemma NewFamily(cfg: Config, fam: map<string, string>, call: Call, t: TokenTable, row: TokenRow)
    requires Rooted(t, fam) && row.hash !in t
    ensures var fam' := fam[row.hash := RootFor(cfg, fam, call, row.hash)];
            NextFamilies(cfg, fam, call, t[row.hash := row]) == fam' && Rooted(t[row.hash := row], fam')
  {
  }

  lemma RootsAreStored(t: TokenTable, fam: map<string, string>)
    requires Rooted(t, fam)
    ensures forall h :: h in fam ==> fam[h] in t
  {
    assert forall h :: h in fam ==> fam[h] in fam.Values;
  }

  /** The family that the row inserted by call joins. */
  function RootFor(cfg: Config, fam: map<string, string>, call: Call, h: string): string {
    if call.Refresh? && cfg.hashToken(call.secret) in fam then fam[cfg.hashToken(call.secret)] else h
  }

  lemma RootIsFree(cfg: Config, s: Sys, fam: map<string, string>, a: Action, h: string)
    requires SysOk(cfg, s) && Rooted(TableOf(s), fam) && OneOpen(cfg, s, fam) && forall g :: Single(cfg, s, g)
    requires a.Advance? && a.cid in s.calls && s.calls[a.cid].pc.SessionCreate?
    requires TableOf(Step(cfg, s, a)) != TableOf(s) && h !in TableOf(s)
    requires forall g :: g in fam && Open(cfg, Step(cfg, s, a), g) ==> Open(cfg, s, g)
    ensures forall g :: g in fam && Open(cfg, Step(cfg, s, a), g) ==>
              fam[g] != RootFor(cfg, fam, s.calls[a.cid].call, h)
  {
    hide Step, Open, SysOk, Single, Rooted, OneOpen, TableOf;
    RootsAreStored(TableOf(s), fam);
    KeysOf(TableOf(s), fam);
    var call := s.calls[a.cid].call;
    if call.Refresh? {
      var given := cfg.hashToken(call.secret);
      assert Single(cfg, s, given);
      SuccessorCloses(cfg, s, a, given);
      NoOtherOpen(cfg, s, fam, given);
    }
  }

  lemma InsertingStepKeepsOneOpen(cfg: Config, s: Sys, fam: map<string, string>, a: Action)
    requires SysOk(cfg, s) && Rooted(TableOf(s), fam) && OneOpen(cfg, s, fam) && forall g :: Single(cfg, s, g)
    requires TableOf(Step(cfg, s, a)).Keys != TableOf(s).Keys
    requires forall h :: h in fam && Open(cfg, Step(cfg, s, a), h) ==> Open(cfg, s, h)
    ensures Rooted(TableOf(Step(cfg, s, a)), NextLineage(cfg, s, fam, a))
    ensures OneOpen(cfg, Step(cfg, s, a), NextLineage(cfg, s, fam, a))
  {
    SoundToStart(cfg, s);
    KeysOf(TableOf(s), fam);
    hide Step, Open, SysOk, Single, NextFamilies, Rooted, OneOpen, RootFor;
    var row := OnlyCreateInserts(cfg, s, a);
    RootIsFree(cfg, s, fam, a, row.hash);
    NewFamily(cfg, fam, s.calls[a.cid].call, TableOf(s), row);
    InsertionKeepsOneOpen(cfg, s, Step(cfg, s, a), fam, row.hash, RootFor(cfg, fam, s.calls[a.cid].call, row.hash));
  }

  lemma NoOtherOpen(cfg: Config, s: Sys, fam: map<string, string>, h: string)
    requires OneOpen(cfg, s, fam) && h in fam && Open(cfg, s, h)
    ensures forall g :: g in fam && Open(cfg, s, g) && fam[g] == fam[h] ==> g == h
  {
    hide Open;
  }

  lemma StepKeepsOneOpen(cfg: Config, s: Sys, fam: map<string, string>, a: Action)
    requires SysOk(cfg, s) && Rooted(TableOf(s), fam) && OneOpen(cfg, s, fam)
    requires forall h :: Single(cfg, s, h)
    ensures Rooted(TableOf(Step(cfg, s, a)), NextLineage(cfg, s, fam, a))
    ensures OneOpen(cfg, Step(cfg, s, a), NextLineage(cfg, s, fam, a))
  {
    SoundToStart(cfg, s);
    KeysOf(TableOf(s), fam);
    hide Step, Open, SysOk, Single, Rooted, OneOpen, NextLineage;
    forall h | h in fam && Open(cfg, Step(cfg, s, a), h) ensures Open(cfg, s, h) {
      NothingReopens(cfg, s, a, h);
    }
    if TableOf(Step(cfg, s, a)).Keys == TableOf(s).Keys {
      SameFamilies(cfg, s, fam, a);
      FewerOpen(cfg, s, Step(cfg, s, a), fam);
    } else {
      InsertingStepKeepsOneOpen(cfg, s, fam, a);
    }
  }

  lemma KeysOf(t: TokenTable, fam: map<string, string>)
    requires Rooted(t, fam)
    ensures fam.Keys == t.Keys
  {
  }

  lemma SameFamilies(cfg: Config, s: Sys, fam: map<string, string>, a: Action)
    requires Rooted(TableOf(s), fam) && TableOf(Step(cfg, s, a)).Keys == TableOf(s).Keys
    ensures NextLineage(cfg, s, fam, a) == fam && Rooted(TableOf(Step(cfg, s, a)), fam)
  {
    hide Step;
  }

  lemma FewerOpen(cfg: Config, s: Sys, s': Sys, fam: map<string, string>)
    requires OneOpen(cfg, s, fam) && forall h :: h in fam && Open(cfg, s', h) ==> Open(cfg, s, h)
    ensures OneOpen(cfg, s', fam)
  {
    hide Open;
  }

  lemma {:induction false} OneOpenWithoutOverlap(cfg: Config, tick: Tick, acts: seq<Action>)
    requires forall h :: NoOverlap(cfg, tick, acts, h)
    ensures Rooted(TableOf(Run(cfg, Idle(tick), acts)), Lineage(cfg, Idle(tick), map[], acts))
    ensures OneOpen(cfg, Run(cfg, Idle(tick), acts), Lineage(cfg, Idle(tick), map[], acts))
  {
    if acts != [] {
      var n := |acts| - 1;
      var mid := Run(cfg, Idle(tick), acts[..n]);
      forall h ensures NoOverlap(cfg, tick, acts[..n], h) && Single(cfg, mid, h) {
        PrefixHasNoOverlap(cfg, tick, acts, h, n);
        ExchangedAtMostOnceWithoutOverlap(cfg, tick, acts[..n], h);
      }
      OneOpenWithoutOverlap(cfg, tick, acts[..n]);
      RunIsSound(cfg, Idle(tick), acts[..n]);
      hide Step, NoOverlap, Single, OneOpen, Rooted, SysOk;
      StepKeepsOneOpen(cfg, mid, Lineage(cfg, Idle(tick), map[], acts[..n]), acts[n]);
    }
  }

  /** In every interleaving and under every fault, as long as no two Refresh calls of one token are
      between reading and revoking it at once, each session has at most one unrevoked token. */
  lemma OneLiveTokenPerFamilyWithoutOverlap(cfg: Config, tick: Tick, acts: seq<Action>)
    requires forall h :: NoOverlap(cfg, tick, acts, h)
    ensures TableOf(Run(cfg, Idle(tick), acts)).Keys == Lineage(cfg, Idle(tick), map[], acts).Keys
    ensures OneTip(TableOf(Run(cfg, Idle(tick), acts)), Lineage(cfg, Idle(tick), map[], acts))
  {
    OneOpenWithoutOverlap(cfg, tick, acts);
    hide Lineage, Run;
    var s, fam := Run(cfg, Idle(tick), acts), Lineage(cfg, Idle(tick), map[], acts);
    forall g, h | Live(TableOf(s), g) && Live(TableOf(s), h) && g in fam && h in fam && fam[g] == fam[h]
      ensures g == h
    {
      assert Open(cfg, s, g) && Open(cfg, s, h);
    }
  }

  // ---------------------------------------------------------------- Following a schedule

  lemma {:induction false} LineageSplits(cfg: Config, s: Sys, fam: map<string, string>, a: seq<Action>, b: seq<Action>)
    ensures Lineage(cfg, s, fam, a + b) == Lineage(cfg, Run(cfg, s, a), Lineage(cfg, s, fam, a), b)
  {
    if b == [] {
      assert a + b == a;
    } else {
      assert (a + b)[..|a + b| - 1] == a + b[..|b| - 1];
      LineageSplits(cfg, s, fam, a, b[..|b| - 1]);
      RunSplits(cfg, s, a, b[..|b| - 1]);
      hide NextLineage;
    }
  }

  lemma StepKeepsFamilies(cfg: Config, s: Sys, fam: map<string, string>, a: Action)
    requires SysOk(cfg, s) && fam.Keys == TableOf(s).Keys
    ensures NextLineage(cfg, s, fam, a).Keys == TableOf(Step(cfg, s, a)).Keys
    ensures forall h :: h in fam ==> h in NextLineage(cfg, s, fam, a) && NextLineage(cfg, s, fam, a)[h] == fam[h]
  {
    StepIsSound(cfg, s, a);
    hide Next, SysOk;
  }

  /** The family of a token never changes, and every stored token has one. */
  lemma {:induction false} FamiliesAreForGood(cfg: Config, s: Sys, fam: map<string, string>, acts: seq<Action>)
    requires SysOk(cfg, s) && fam.Keys == TableOf(s).Keys
    ensures Lineage(cfg, s, fam, acts).Keys == TableOf(Run(cfg, s, acts)).Keys
    ensures forall h :: h in fam ==> h in Lineage(cfg, s, fam, acts) && Lineage(cfg, s, fam, acts)[h] == fam[h]
  {
    if acts != [] {
      hide Step, SysOk, NextLineage, TableOf;
      var n := |acts| - 1;
      FamiliesAreForGood(cfg, s, fam, acts[..n]);
      RunIsSound(cfg, s, acts[..n]);
      StepKeepsFamilies(cfg, Run(cfg, s, acts[..n]), Lineage(cfg, s, fam, acts[..n]), acts[n]);
    }
  }
}
