/** The serializability theorem for the optimistic protocol with two-phase commit. */
module OccSerial {
  import opened Options
  import opened Locking
  import opened OccSite
  import opened OccInv
  import opened History
  import opened OccSystem
  import opened OccProof

  lemma {:induction false} SerialOps(f: Table, log: seq<Tid>, at: map<Tid, Attempt>, at': map<Tid, Attempt>)
    requires forall t :: t in log ==> t in at && t in at' && at[t].ops == at'[t].ops
    ensures Serial(f, log, at) == Serial(f, log, at')
  {
    if log != [] {
      SerialOps(f, log[..|log| - 1], at, at');
    }
  }

  /** Nothing changes in what is pending at one place, or in the table there. */
  ghost predicate SameAt(y: System, y': System, s: nat, c: Cell)
    requires s in y.sites && s in y'.sites && c in y.sites[s].values && c in y'.sites[s].values
  {
    && y'.sites[s].values[c] == y.sites[s].values[c]
    && (forall t :: Pending(y', t, s, c) <==> Pending(y, t, s, c))
    && (forall t :: Pending(y, t, s, c) ==> y'.sites[s].txns[t].updates[c] == y.sites[s].txns[t].updates[c])
  }

  ghost predicate SameKeys(y: System, y': System) {
    y'.sites.Keys == y.sites.Keys && forall s :: s in y.sites ==> y'.sites[s].values.Keys == y.sites[s].values.Keys
  }

  ghost predicate PendingSame(y: System, y': System) {
    SameKeys(y, y') && forall s, c :: s in y.sites && c in y.sites[s].values ==> SameAt(y, y', s, c)
  }

  lemma KeysSame(y: System, y': System)
    requires SameKeys(y, y')
    ensures Values(y'.sites).Keys == Values(y.sites).Keys
  {
    forall loc: Loc
      ensures loc in Values(y'.sites) <==> loc in Values(y.sites)
    {
      ValueAt(y.sites, loc.site, loc.cell);
      ValueAt(y'.sites, loc.site, loc.cell);
    }
  }

  lemma SerialSameAt(y: System, y': System, f: Table, s: nat, c: Cell)
    requires s in y.sites && s in y'.sites && c in y.sites[s].values && c in y'.sites[s].values
    requires SerialAt(y, f, s, c) && SameAt(y, y', s, c)
    ensures SerialAt(y', f, s, c)
  {
    if forall t :: !Pending(y', t, s, c) {
      assert forall t :: !Pending(y, t, s, c);
    }
  }

  lemma SerialSame(y: System, y': System, f: Table)
    requires PendingSame(y, y') && SerialMatches(y, f)
    ensures SerialMatches(y', f)
  {
    KeysSame(y, y');
    hide Values, Pending, SerialAt, SameAt;
    forall s, c | s in y'.sites && c in y'.sites[s].values
      ensures SerialAt(y', f, s, c)
    {
      SerialSameAt(y, y', f, s, c);
    }
  }

  lemma UndecidedAt(y: System, y': System, s: nat, t: Tid, s2: nat, c: Cell)
    requires OneSite(y, y', s, t) && SameTable(y.sites[s], y'.sites[s]) && !Decided(y, t) && !Decided(y', t)
    requires s2 in y.sites && c in y.sites[s2].values
    ensures c in y'.sites[s2].values && SameAt(y, y', s2, c)
  {
    hide SiteInv, Forward;
    assert forall u :: u != t ==> (Decided(y', u) <==> Decided(y, u));
  }

  lemma OneSiteKeys(y: System, y': System, s: nat, t: Tid)
    requires OneSite(y, y', s, t)
    ensures SameKeys(y, y')
  {
  }

  /** A transaction that is not decided has nothing pending, so its steps do not matter. */
  lemma UndecidedStep(y: System, y': System, s: nat, t: Tid)
    requires OneSite(y, y', s, t) && SameTable(y.sites[s], y'.sites[s]) && !Decided(y, t) && !Decided(y', t)
    ensures PendingSame(y, y')
  {
    OneSiteKeys(y, y', s, t);
    hide OneSite, SameTable, SameAt, Decided;
    forall s2, c | s2 in y.sites && c in y.sites[s2].values
      ensures SameAt(y, y', s2, c)
    {
      assert s in y.sites;
      UndecidedAt(y, y', s, t, s2, c);
    }
  }

  lemma SitelessStep(y: System, y': System, t: Tid)
    requires y'.sites == y.sites && t in y'.attempts && y'.attempts == y.attempts[t := y'.attempts[t]]
    requires Decided(y, t) <==> Decided(y', t)
    ensures PendingSame(y, y')
  {
    assert forall u :: Decided(y', u) <==> Decided(y, u);
  }

  /** A decided transaction whose update is pending at a site is prepared there. */
  lemma PendingVerified(y: System, t: Tid, s: nat, c: Cell)
    requires Inv(y) && s in y.sites && Pending(y, t, s, c)
    ensures y.sites[s].txns[t].verified
  {
    assert TxnInv(y.sites, t, y.attempts[t]);
    assert Link(s, y.sites[s], t, y.attempts[t]);
  }

  /** What a prepared transaction read or wrote is not pending from anyone else. */
  lemma NotPending(y: System, t: Tid, u: Tid, s: nat, c: Cell)
    requires Inv(y) && s in y.sites && t in y.sites[s].txns && y.sites[s].txns[t].verified && u != t
    requires c in y.sites[s].txns[t].readVer || c in y.sites[s].txns[t].updates
    ensures !Pending(y, u, s, c)
  {
    hide SiteInv, TxnInv;
    if Pending(y, u, s, c) {
      PendingVerified(y, u, s, c);
      Apart(y.sites[s], u, t, c);
    }
  }

  /** The reply that makes the coordinator commit. */
  predicate Deciding(a: Attempt, s: nat, error: bool) {
    s in a.replies && Replied(a, s, error).phase == Committing
  }

  /** All sites a deciding transaction contacted have prepared it. */
  lemma AllPrepared(sites: map<nat, Site>, t: Tid, a: Attempt, s: nat, error: bool, s2: nat)
    requires Deciding(a, s, error) && s2 in sites && t in sites[s2].txns && AttemptOk(a, sites.Keys)
    requires Link(s2, sites[s2], t, a)
    ensures sites[s2].txns[t].verified && Undecided(a)
  {
    hide Matches;
    RepliedOk(a, sites.Keys, s, error);
  }

  lemma VerifiedMatch(site: Site, t: Tid)
    requires SiteInv(site) && t in site.txns && site.txns[t].verified
    ensures VersionsMatch(site, site.txns[t].readVer)
  {
    assert EntryOk(site, t);
  }

  /** So nothing it read is outdated. */
  lemma DecisionCurrent(y: System, t: Tid, s: nat, error: bool)
    requires t in y.attempts && Deciding(y.attempts[t], s, error) && Inv(y)
    ensures ReadsMatch(y.attempts[t].ops, Values(y.sites)) && Within(y.attempts[t].ops, Values(y.sites))
  {
    hide SiteInv, Values, ReadsMatch, Within, AttemptOk, Link;
    var a := y.attempts[t];
    assert TxnInv(y.sites, t, a);
    RepliedOk(a, y.sites.Keys, s, error);
    forall s2 | s2 in y.sites && t in y.sites[s2].txns
      ensures VersionsMatch(y.sites[s2], y.sites[s2].txns[t].readVer)
    {
      AllPrepared(y.sites, t, a, s, error, s2);
      VerifiedMatch(y.sites[s2], t);
    }
    assert Current(y.sites, t);
  }

  lemma DecisionRead(y: System, t: Tid, s: nat, error: bool, f: Table, loc: Loc)
    requires t in y.attempts && Deciding(y.attempts[t], s, error)
    requires loc in TableReads(y.attempts[t].ops) && loc in Values(y.sites)
    requires Inv(y) && SerialMatches(y, f)
    ensures loc in f && f[loc] == Values(y.sites)[loc]
  {
    hide SiteInv, Values, ReadsMatch, Within, Staged, TableReads, Sound;
    var a, s2, c := y.attempts[t], loc.site, loc.cell;
    assert TxnInv(y.sites, t, a);
    RepliedOk(a, y.sites.Keys, s, error);
    TouchedSites(a.ops, a.proxies);
    ValueAt(y.sites, s2, c);
    assert Link(s2, y.sites[s2], t, a) && SerialAt(y, f, s2, c);
    AllPrepared(y.sites, t, a, s, error, s2);
    hide TxnInv;
    forall u
      ensures !Pending(y, u, s2, c)
    {
      if u != t {
        NotPending(y, t, u, s2, c);
      }
    }
  }

  /** At its decision a transaction runs alone on the serial table. */
  lemma DecisionReplays(y: System, t: Tid, s: nat, error: bool, f: Table)
    requires t in y.attempts && Deciding(y.attempts[t], s, error)
    requires Inv(y) && SerialMatches(y, f)
    ensures Replay(f, y.attempts[t].ops) == Some(Overlay(f, Staged(y.attempts[t].ops)))
  {
    var a := y.attempts[t];
    assert f.Keys == Values(y.sites).Keys;
    hide *;
    DecisionCurrent(y, t, s, error);
    forall loc | loc in TableReads(a.ops) && loc in Values(y.sites)
      ensures loc in f && f[loc] == Values(y.sites)[loc]
    {
      DecisionRead(y, t, s, error, f, loc);
    }
    SameReads(a.ops, Values(y.sites), f);
    WithinKeys(a.ops, Values(y.sites), f);
    ReplayFits(f, a.ops);
  }

  lemma WithinKeys(ops: seq<Op>, f: Table, g: Table)
    requires Within(ops, f) && g.Keys == f.Keys
    ensures Within(ops, g)
  {
  }

  /** The step in which commit is decided. */
  ghost predicate Decision(y: System, y': System, t: Tid, s: nat, error: bool) {
    && t in y.attempts && Deciding(y.attempts[t], s, error)
    && y'.sites == y.sites && y'.attempts == y.attempts[t := Replied(y.attempts[t], s, error)]
  }

  /** At a place the deciding transaction wrote, its update is the one that is pending. */
  lemma DecisionWritten(y: System, y': System, t: Tid, s: nat, error: bool, f: Table, s2: nat, c: Cell)
    requires Decision(y, y', t, s, error) && s2 in y.sites && c in y.sites[s2].values
    requires Loc(s2, c) in Staged(y.attempts[t].ops) && f.Keys == Values(y.sites).Keys
    requires Inv(y)
    ensures SerialAt(y', Overlay(f, Staged(y.attempts[t].ops)), s2, c)
  {
    hide SiteInv, TxnInv, Values, Staged;
    WrittenEntry(y.sites, t, y.attempts[t], s, error, s2, c);
    ValueAt(y.sites, s2, c);
    forall u | u != t
      ensures !Pending(y', u, s2, c)
    {
      NotPending(y, t, u, s2, c);
    }
    assert Pending(y', t, s2, c);
  }

  lemma WrittenEntry(sites: map<nat, Site>, t: Tid, a: Attempt, s: nat, error: bool, s2: nat, c: Cell)
    requires Deciding(a, s, error) && s2 in sites && Loc(s2, c) in Staged(a.ops)
    requires TxnInv(sites, t, a)
    ensures t in sites[s2].txns && sites[s2].txns[t].verified
    ensures c in sites[s2].txns[t].updates && sites[s2].txns[t].updates[c] == Staged(a.ops)[Loc(s2, c)]
  {
    hide Values, ReadsMatch, Within, Staged, TableReads, Sound;
    RepliedOk(a, sites.Keys, s, error);
    TouchedSites(a.ops, a.proxies);
    assert Link(s2, sites[s2], t, a);
    AllPrepared(sites, t, a, s, error, s2);
  }

  /** Elsewhere nothing changes. */
  lemma DecisionElsewhere(y: System, y': System, t: Tid, s: nat, error: bool, f: Table, s2: nat, c: Cell)
    requires Decision(y, y', t, s, error) && s2 in y.sites && c in y.sites[s2].values
    requires Loc(s2, c) !in Staged(y.attempts[t].ops) && SerialAt(y, f, s2, c)
    requires TxnInv(y.sites, t, y.attempts[t])
    ensures SerialAt(y', Overlay(f, Staged(y.attempts[t].ops)), s2, c)
  {
    hide Values, ReadsMatch, Within, Staged, TableReads, Sound, Replied;
    var a := y.attempts[t];
    RepliedOk(a, y.sites.Keys, s, error);
    assert Link(s2, y.sites[s2], t, a);
    assert !Pending(y, t, s2, c) && !Pending(y', t, s2, c);
    assert forall u :: u != t ==> (Pending(y', u, s2, c) <==> Pending(y, u, s2, c));
  }

  lemma DecisionMatches(y: System, y': System, t: Tid, s: nat, error: bool, f: Table)
    requires Decision(y, y', t, s, error) && Inv(y) && SerialMatches(y, f)
    ensures SerialMatches(y', Overlay(f, Staged(y.attempts[t].ops)))
  {
    hide SiteInv, TxnInv, Values, Staged, Replied, SerialAt;
    var g := Overlay(f, Staged(y.attempts[t].ops));
    forall s2, c | s2 in y'.sites && c in y'.sites[s2].values
      ensures SerialAt(y', g, s2, c)
    {
      if Loc(s2, c) in Staged(y.attempts[t].ops) {
        DecisionWritten(y, y', t, s, error, f, s2, c);
      } else {
        assert SerialAt(y, f, s2, c);
        DecisionElsewhere(y, y', t, s, error, f, s2, c);
      }
    }
  }

  /** A committed update that arrives moves from pending into the table. */
  lemma ConfirmAt(y: System, t: Tid, s: nat, f: Table, s2: nat, c: Cell)
    requires Enabled(y, HandleFinish(t, s)) && y.attempts[t].phase == Committing && y.sites[s].txns[t].verified
    requires s2 in y.sites && c in y.sites[s2].values && SerialAt(y, f, s2, c)
    requires Inv(y)
    ensures SerialAt(After(y, HandleFinish(t, s)), f, s2, c)
  {
    hide SiteInv, TxnInv;
    var y' := After(y, HandleFinish(t, s));
    assert forall u :: Decided(y', u) <==> Decided(y, u);
    assert forall u :: u != t ==> (Pending(y', u, s2, c) <==> Pending(y, u, s2, c));
    if s2 == s && c in y.sites[s].txns[t].updates {
      assert Pending(y, t, s, c) && !Pending(y', t, s, c);
      forall u | u != t
        ensures !Pending(y, u, s, c)
      {
        NotPending(y, t, u, s, c);
      }
    } else {
      assert Pending(y', t, s2, c) <==> Pending(y, t, s2, c);
    }
  }

  lemma ConfirmMatches(y: System, t: Tid, s: nat, f: Table)
    requires Enabled(y, HandleFinish(t, s)) && y.attempts[t].phase == Committing && y.sites[s].txns[t].verified
    requires Inv(y) && SerialMatches(y, f)
    ensures SerialMatches(After(y, HandleFinish(t, s)), f)
  {
    hide SiteInv, TxnInv, Values, SerialAt;
    var y' := After(y, HandleFinish(t, s));
    assert SameKeys(y, y');
    KeysSame(y, y');
    forall s2, c | s2 in y'.sites && c in y'.sites[s2].values
      ensures SerialAt(y', f, s2, c)
    {
      ConfirmAt(y, t, s, f, s2, c);
    }
  }

  /** The serial run of the decisions so far ends in `f`, and `f` is what the sites hold once all updates arrive. */
  ghost predicate SerialInv(y: System, f0: Table, f: Table) {
    (forall t :: t in y.log ==> t in y.attempts) && Serial(f0, y.log, y.attempts) == Some(f) && SerialMatches(y, f)
  }

  lemma QuietKeeps(y: System, y': System, t: Tid, f0: Table, f: Table)
    requires Inv(y) && PendingSame(y, y') && t in y'.attempts && y'.attempts == y.attempts[t := y'.attempts[t]]
    requires y'.log == y.log && !Decided(y, t) && SerialInv(y, f0, f)
    ensures SerialInv(y', f0, f)
  {
    hide SiteInv, TxnInv, Serial, PendingSame, SerialMatches;
    SerialOps(f0, y.log, y.attempts, y'.attempts);
    SerialSame(y, y', f);
  }

  /** The first handler of a step, if it has one, is run for the transaction named in the step. */
  lemma UndecidedKeeps(y: System, y': System, s: nat, t: Tid, f0: Table, f: Table)
    requires Inv(y) && OneSite(y, y', s, t) && SameTable(y.sites[s], y'.sites[s])
    requires y'.log == y.log && !Decided(y, t) && !Decided(y', t) && SerialInv(y, f0, f)
    ensures SerialInv(y', f0, f)
  {
    UndecidedStep(y, y', s, t);
    hide SiteInv, TxnInv, SerialInv, PendingSame, Forward, OthersSame;
    QuietKeeps(y, y', t, f0, f);
  }

  lemma DecisionKeeps(y: System, y': System, t: Tid, s: nat, error: bool, f0: Table, f: Table)
    requires Decision(y, y', t, s, error) && y'.log == y.log + [t]
    requires Inv(y) && SerialInv(y, f0, f)
    ensures SerialInv(y', f0, Overlay(f, Staged(y.attempts[t].ops)))
  {
    hide SiteInv, TxnInv, SerialMatches, Replied, Replay, Staged;
    assert y'.attempts[t].ops == y.attempts[t].ops by {
      assert TxnInv(y.sites, t, y.attempts[t]);
      RepliedOps(y.attempts[t], s, error);
    }
    DecisionReplays(y, t, s, error, f);
    DecisionMatches(y, y', t, s, error, f);
    assert y'.log[..|y.log|] == y.log;
    SerialOps(f0, y.log, y.attempts, y'.attempts);
  }

  lemma RepliedOps(a: Attempt, s: nat, error: bool)
    requires s in a.replies
    ensures Replied(a, s, error).ops == a.ops
  {
  }

  lemma ExecKeeps(y: System, step: Step, f0: Table, f: Table)
    requires Enabled(y, step) && (step.Contact? || step.Read? || step.Write? || step.HandlePrepare?)
    requires Inv(y) && SerialInv(y, f0, f)
    ensures Inv(After(y, step)) && SerialInv(After(y, step), f0, f)
  {
    hide SiteInv, TxnInv, SerialInv, OneSite, PrepareOk;
    var y' := After(y, step);
    match step
    case Contact(t, s) =>
      ContactInv(y, t, s);
      UndecidedKeeps(y, y', s, t, f0, f);
    case Read(t, loc) =>
      ReadInv(y, t, loc);
      UndecidedKeeps(y, y', loc.site, t, f0, f);
    case Write(t, loc, v) =>
      WriteInv(y, t, loc, v);
      UndecidedKeeps(y, y', loc.site, t, f0, f);
    case HandlePrepare(t, s) =>
      PrepareInv(y, t, s);
      PreparePhase(y.sites, t, y.attempts[t], s);
      UndecidedKeeps(y, y', s, t, f0, f);
  }

  lemma PreparePhase(sites: map<nat, Site>, t: Tid, a: Attempt, s: nat)
    requires TxnInv(sites, t, a) && s in a.toPrepare
    ensures a.phase == Preparing
  {
  }

  lemma FinishKeeps(y: System, t: Tid, s: nat, f0: Table, f: Table)
    requires Enabled(y, HandleFinish(t, s)) && Inv(y) && SerialInv(y, f0, f)
    ensures Inv(After(y, HandleFinish(t, s))) && SerialInv(After(y, HandleFinish(t, s)), f0, f)
  {
    hide SiteInv, TxnInv, OneSite, Serial, SerialMatches;
    var y' := After(y, HandleFinish(t, s));
    FinishInv(y, t, s);
    assert Local(y, s, t);
    FinishSite(y, t, s);
    if y.attempts[t].phase == Committing {
      ConfirmMatches(y, t, s, f);
      SerialOps(f0, y.log, y.attempts, y'.attempts);
    } else {
      UndecidedKeeps(y, y', s, t, f0, f);
    }
  }

  lemma SitelessKeeps(y: System, y': System, t: Tid, f0: Table, f: Table)
    requires Inv(y) && y'.sites == y.sites && t in y'.attempts && y'.attempts == y.attempts[t := y'.attempts[t]]
    requires y'.log == y.log && !Decided(y, t) && !Decided(y', t) && SerialInv(y, f0, f)
    ensures SerialInv(y', f0, f)
  {
    SitelessStep(y, y', t);
    hide SiteInv, TxnInv, SerialInv, PendingSame;
    QuietKeeps(y, y', t, f0, f);
  }

  lemma ReplyKeeps(y: System, t: Tid, s: nat, error: bool, f0: Table, f: Table) returns (g: Table)
    requires Enabled(y, PrepareReply(t, s, error)) && Inv(y) && SerialInv(y, f0, f)
    ensures Inv(After(y, PrepareReply(t, s, error))) && SerialInv(After(y, PrepareReply(t, s, error)), f0, g)
  {
    hide SiteInv, TxnInv, SerialInv, Replied;
    var y' := After(y, PrepareReply(t, s, error));
    ReplyInv(y, t, s, error);
    if Deciding(y.attempts[t], s, error) {
      g := Overlay(f, Staged(y.attempts[t].ops));
      DecisionKeeps(y, y', t, s, error, f0, f);
    } else {
      g := f;
      assert TxnInv(y.sites, t, y.attempts[t]);
      ReplyTxn(y.sites, t, y.attempts[t], s, error);
      SitelessKeeps(y, y', t, f0, f);
    }
  }

  /** One step: the invariant is kept, and the serial run goes on by the transaction decided in this step, if any. */
  lemma StepKeeps(y: System, step: Step, f0: Table, f: Table) returns (g: Table)
    requires Enabled(y, step) && Inv(y) && SerialInv(y, f0, f)
    ensures Inv(After(y, step)) && SerialInv(After(y, step), f0, g)
  {
    hide SiteInv, TxnInv, SerialInv, Replied, PrepareOk;
    var y' := After(y, step);
    g := f;
    match step
    case Begin(t) =>
      BeginInv(y, t);
      SitelessKeeps(y, y', t, f0, f);
    case SendPrepare(t) =>
      SendPrepareInv(y, t);
      SitelessKeeps(y, y', t, f0, f);
    case LosePrepare(t, s) =>
      LoseInv(y, t, s);
      assert TxnInv(y.sites, t, y.attempts[t]);
      LoseTxn(y.sites, t, y.attempts[t], s);
      SitelessKeeps(y, y', t, f0, f);
    case PrepareReply(t, s, error) =>
      g := ReplyKeeps(y, t, s, error, f0, f);
    case HandleFinish(t, s) =>
      FinishKeeps(y, t, s, f0, f);
    case _ =>
      ExecKeeps(y, step, f0, f);
  }

  // ---- Whole runs

  /** The system after a sequence of steps, each of which must be possible where it is taken. */
  ghost function Run(y: System, steps: seq<Step>): Option<System> {
    if steps == [] then Some(y)
    else
      match Run(y, steps[..|steps| - 1])
      case None => None
      case Some(z) => if Enabled(z, steps[|steps| - 1]) then Some(After(z, steps[|steps| - 1])) else None
  }

  /** Sites in order, nothing running, nothing decided. */
  ghost predicate Initial(y: System) {
    y.attempts == map[] && y.log == [] && forall s :: s in y.sites ==> Valid(y.sites[s]) && y.sites[s].txns == map[]
  }

  lemma InitialInv(y: System)
    requires Initial(y)
    ensures Inv(y) && SerialInv(y, Values(y.sites), Values(y.sites))
  {
    forall s, c | s in y.sites && c in y.sites[s].values
      ensures SerialAt(y, Values(y.sites), s, c)
    {
      ValueAt(y.sites, s, c);
    }
  }

  /**
   * In every run, from any sites in order, the transactions whose commit was decided can be run alone one after the
   * other in the order of their decisions: every read returns what it returned, and the table at the end is what the
   * sites hold, with the committed updates that are still on their way.
   */
  lemma {:induction false} Serializable(y0: System, steps: seq<Step>, y: System) returns (f: Table)
    requires Initial(y0) && Run(y0, steps) == Some(y)
    ensures Inv(y) && SerialInv(y, Values(y0.sites), f)
  {
    hide SiteInv, TxnInv, SerialInv, After, Values;
    if steps == [] {
      f := Values(y0.sites);
      InitialInv(y0);
    } else {
      var before := Run(y0, steps[..|steps| - 1]).value;
      var g := Serializable(y0, steps[..|steps| - 1], before);
      f := StepKeeps(before, steps[|steps| - 1], Values(y0.sites), g);
    }
  }

  /** Every message of every decision has been handled. */
  ghost predicate Settled(y: System) {
    forall t :: t in y.attempts ==> y.attempts[t].toFinish == {}
  }

  lemma NothingPending(y: System, t: Tid, s: nat, c: Cell)
    requires Inv(y) && Settled(y) && s in y.sites
    ensures !Pending(y, t, s, c)
  {
    hide SiteInv;
    if t in y.attempts && y.attempts[t].phase == Committing {
      assert TxnInv(y.sites, t, y.attempts[t]);
      assert Link(s, y.sites[s], t, y.attempts[t]);
    }
  }

  lemma SettledTable(y: System, f: Table)
    requires Inv(y) && Settled(y) && SerialMatches(y, f)
    ensures f == Values(y.sites)
  {
    hide Inv, Values;
    forall loc | loc in f
      ensures f[loc] == Values(y.sites)[loc]
    {
      ValueAt(y.sites, loc.site, loc.cell);
      assert SerialAt(y, f, loc.site, loc.cell);
      forall t
        ensures !Pending(y, t, loc.site, loc.cell)
      {
        NothingPending(y, t, loc.site, loc.cell);
      }
    }
  }

  /** Once every commit has reached its sites, the sites hold exactly the result of the serial run. */
  lemma SettledSerial(y0: System, steps: seq<Step>, y: System)
    requires Initial(y0) && Run(y0, steps) == Some(y) && Settled(y)
    ensures SerialInv(y, Values(y0.sites), Values(y.sites))
  {
    hide Inv, Values, Serial, SerialMatches, Settled, Run, Initial;
    var f := Serializable(y0, steps, y);
    SettledTable(y, f);
  }

  /** Two transactions that commit are committed in one order everywhere: each appears in the log once. */
  lemma {:induction false} DecidedOnce(y0: System, steps: seq<Step>, y: System)
    requires Initial(y0) && Run(y0, steps) == Some(y)
    ensures forall i, j :: 0 <= i < j < |y.log| ==> y.log[i] != y.log[j]
  {
    hide Inv, SerialInv, After, Enabled, Valid;
    if steps != [] {
      var before, step := Run(y0, steps[..|steps| - 1]).value, steps[|steps| - 1];
      DecidedOnce(y0, steps[..|steps| - 1], before);
      LogStep(before, step);
      if y.log != before.log {
        var f := Serializable(y0, steps[..|steps| - 1], before);
        LogFresh(before, step);
      }
    }
  }

  lemma LogStep(y: System, step: Step)
    requires Enabled(y, step)
    ensures After(y, step).log == y.log || (step.PrepareReply? && After(y, step).log == y.log + [step.t])
  {
  }

  lemma LogFresh(y: System, step: Step)
    requires Enabled(y, step) && step.PrepareReply? && Inv(y)
    ensures step.t !in y.log
  {
    hide SiteInv;
    assert TxnInv(y.sites, step.t, y.attempts[step.t]);
  }
}
