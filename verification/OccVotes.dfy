/**
 * When a site votes yes and when a transaction commits, told from the steps of the run: which operations were done,
 * and which committed updates were installed in between. Versions and locks do not occur in the statements.
 */
module OccVotes {
  import opened Options
  import opened Locking
  import opened OccSite
  import opened OccInv
  import opened History
  import opened OccSystem
  import opened OccProof
  import opened OccSerial

  // ---- What happened

  /** The step is a read or a write of `loc` by `t`. */
  predicate Uses(step: Step, t: Tid, loc: Loc) {
    (step.Read? || step.Write?) && step.t == t && step.loc == loc
  }

  ghost predicate Used(steps: seq<Step>, t: Tid, loc: Loc) {
    exists i :: 0 <= i < |steps| && Uses(steps[i], t, loc)
  }

  /** The step brings a committed update of `loc` to its site. */
  ghost predicate Installs(y: System, step: Step, loc: Loc) {
    step.HandleFinish? && step.site == loc.site && Decided(y, step.t) && loc in Staged(y.attempts[step.t].ops)
  }

  ghost predicate InstalledAt(y0: System, steps: seq<Step>, j: nat, loc: Loc)
    requires j < |steps|
  {
    Run(y0, steps[..j]).Some? && Installs(Run(y0, steps[..j]).value, steps[j], loc)
  }

  /** A committed update of `loc` has been installed since `t` used it. */
  ghost predicate Outdated(y0: System, steps: seq<Step>, t: Tid, loc: Loc) {
    exists i, j :: 0 <= i < j < |steps| && Uses(steps[i], t, loc) && InstalledAt(y0, steps, j, loc)
  }

  lemma UsedLast(steps: seq<Step>, t: Tid, loc: Loc)
    requires steps != []
    ensures var n := |steps| - 1; Used(steps, t, loc) <==> Used(steps[..n], t, loc) || Uses(steps[n], t, loc)
  {
    var n := |steps| - 1;
    if Used(steps, t, loc) && !Uses(steps[n], t, loc) {
      var i :| 0 <= i < |steps| && Uses(steps[i], t, loc);
      assert steps[..n][i] == steps[i];
    }
    if Used(steps[..n], t, loc) {
      var i :| 0 <= i < n && Uses(steps[..n][i], t, loc);
      assert Uses(steps[i], t, loc);
    }
  }

  lemma InstalledPrefix(y0: System, steps: seq<Step>, n: nat, j: nat, loc: Loc)
    requires j < n <= |steps|
    ensures InstalledAt(y0, steps[..n], j, loc) <==> InstalledAt(y0, steps, j, loc)
  {
    assert steps[..n][..j] == steps[..j] && steps[..n][j] == steps[j];
  }

  lemma OutdatedLast(y0: System, steps: seq<Step>, t: Tid, loc: Loc)
    requires steps != []
    ensures var n := |steps| - 1;
      Outdated(y0, steps, t, loc) <==>
      Outdated(y0, steps[..n], t, loc) || (Used(steps[..n], t, loc) && InstalledAt(y0, steps, n, loc))
  {
    hide InstalledAt;
    var n := |steps| - 1;
    var pre := steps[..n];
    if Outdated(y0, steps, t, loc) {
      var i, j :| 0 <= i < j < |steps| && Uses(steps[i], t, loc) && InstalledAt(y0, steps, j, loc);
      assert Uses(pre[i], t, loc);
      if j < n {
        InstalledPrefix(y0, steps, n, j, loc);
      }
    }
    if Outdated(y0, pre, t, loc) {
      var i, j :| 0 <= i < j < n && Uses(pre[i], t, loc) && InstalledAt(y0, pre, j, loc);
      assert Uses(steps[i], t, loc);
      InstalledPrefix(y0, steps, n, j, loc);
    }
    if Used(pre, t, loc) && InstalledAt(y0, steps, n, loc) {
      var i :| 0 <= i < n && Uses(pre[i], t, loc);
      assert Uses(steps[i], t, loc);
    }
  }

  // ---- What was used is what is recorded

  ghost function Locs(ops: seq<Op>): set<Loc> {
    TableReads(ops) + Staged(ops).Keys
  }

  ghost function LocsOf(y: System, t: Tid): set<Loc> {
    if t in y.attempts then Locs(y.attempts[t].ops) else {}
  }

  lemma LocsMore(ops: seq<Op>, op: Op)
    ensures Locs(ops + [op]) == Locs(ops) + {op.loc}
  {
    OneMore(ops, op, map[]);
  }

  lemma StepLocs(y: System, step: Step, t: Tid, loc: Loc)
    requires Enabled(y, step)
    ensures loc in LocsOf(After(y, step), t) <==> loc in LocsOf(y, t) || Uses(step, t, loc)
  {
    hide Locs, AfterRead, AfterWrite, AfterPrepare, AfterConfirm, AfterAbort, ReadValue, PrepareOk;
    match step
    case Begin(u) => assert Locs([]) == {} by { NoLocs(); }
    case Read(u, l) => LocsMore(y.attempts[u].ops, R(l, ReadValue(y.sites[l.site], u, l.cell)));
    case Write(u, l, v) => LocsMore(y.attempts[u].ops, W(l, v));
    case _ =>
  }

  lemma NoLocs()
    ensures Locs([]) == {}
  {
  }

  lemma {:induction false} RunLocs(y0: System, steps: seq<Step>, y: System, t: Tid, loc: Loc)
    requires Initial(y0) && Run(y0, steps) == Some(y)
    ensures Used(steps, t, loc) <==> loc in LocsOf(y, t)
  {
    hide After, Enabled, LocsOf, Valid;
    if steps == [] {
      NothingYet(y0, t);
    } else {
      var n := |steps| - 1;
      var before := Run(y0, steps[..n]).value;
      RunLocs(y0, steps[..n], before, t, loc);
      StepLocs(before, steps[n], t, loc);
      UsedLast(steps, t, loc);
    }
  }

  lemma NothingYet(y: System, t: Tid)
    requires Initial(y)
    ensures LocsOf(y, t) == {}
  {
  }

  // ---- Recorded versions tell what was installed

  /** The recorded versions of a cell, if there are any, are the current one. */
  ghost predicate Matching(x: Txn, vers: map<Cell, nat>, c: Cell) {
    && (c in x.readVer ==> c in vers && vers[c] == x.readVer[c])
    && (c in x.writeVer ==> c in vers && vers[c] == x.writeVer[c])
  }

  ghost predicate Here(y: System, t: Tid, s: nat) {
    s in y.sites && t in y.sites[s].txns
  }

  ghost predicate UpToDate(y: System, t: Tid, loc: Loc) {
    Here(y, t, loc.site) && Matching(y.sites[loc.site].txns[t], y.sites[loc.site].vers, loc.cell)
  }

  lemma StagedMatching(site: Site, t: Tid, c0: Cell, v: Value, u: Tid, c: Cell)
    requires t in site.txns && u in site.txns && site.txns[t].updates.Keys == site.txns[t].writeVer.Keys
    requires c0 in site.vers
    ensures Matching(AfterRead(site, t, c0).txns[u], AfterRead(site, t, c0).vers, c)
      <==> Matching(site.txns[u], site.vers, c)
    ensures Matching(AfterWrite(site, t, c0, v).txns[u], AfterWrite(site, t, c0, v).vers, c)
      <==> Matching(site.txns[u], site.vers, c)
  {
  }

  lemma PreparedMatching(site: Site, t: Tid, u: Tid, c: Cell)
    requires t in site.txns && u in site.txns
    ensures u in AfterPrepare(site, t).txns
    ensures Matching(AfterPrepare(site, t).txns[u], AfterPrepare(site, t).vers, c)
      <==> Matching(site.txns[u], site.vers, c)
  {
    hide PrepareOk;
  }

  /** A confirmed update makes what others recorded of its cells out of date. */
  lemma FinishedMatching(site: Site, t: Tid, commit: bool, u: Tid, c: Cell)
    requires t in site.txns && u in site.txns && u != t
    requires NotAhead(site, site.txns[u].readVer) && NotAhead(site, site.txns[u].writeVer)
    ensures var site' := if commit then AfterConfirm(site, t) else AfterAbort(site, t);
      && u in site'.txns
      && (Matching(site'.txns[u], site'.vers, c) <==>
          Matching(site.txns[u], site.vers, c)
          && !(commit && c in site.txns[t].updates && (c in site.txns[u].readVer || c in site.txns[u].writeVer)))
  {
  }

  /** What a site has recorded of a transaction is what the transaction used there. */
  lemma Recorded(y: System, t: Tid, s: nat, c: Cell)
    requires Inv(y) && Here(y, t, s)
    ensures var site := y.sites[s]; var x := site.txns[t];
      && t in y.attempts && site.values.Keys == site.vers.Keys && x.updates.Keys == x.writeVer.Keys
      && NotAhead(site, x.readVer) && NotAhead(site, x.writeVer)
      && (c in x.readVer <==> Loc(s, c) in TableReads(y.attempts[t].ops))
      && (c in x.writeVer <==> Loc(s, c) in Staged(y.attempts[t].ops))
  {
    hide LockOk, Guarded, Sound, AttemptOk, Values, Within, TableReads, Staged, StatusOk;
    assert SiteInv(y.sites[s]) && EntryOk(y.sites[s], t) && TxnOk(y.sites[s], y.sites[s].txns[t]);
    assert TxnInv(y.sites, t, y.attempts[t]);
    assert Link(s, y.sites[s], t, y.attempts[t]);
  }

  lemma StepUpToDate(y: System, step: Step, t: Tid, loc: Loc)
    requires Inv(y) && Enabled(y, step) && Here(y, t, loc.site) && Here(After(y, step), t, loc.site)
    ensures UpToDate(After(y, step), t, loc) <==>
      UpToDate(y, t, loc) && !(Installs(y, step, loc) && loc in LocsOf(y, t))
  {
    hide Inv, Matching, TableReads, Staged, NotAhead;
    hide AfterRead, AfterWrite, AfterPrepare, AfterConfirm, AfterAbort, ReadValue, PrepareOk;
    var c, site := loc.cell, y.sites[loc.site];
    Recorded(y, t, loc.site, c);
    match step
    case Contact(u, s) =>
      NotYetHere(y, u, s);
    case Read(u, l) =>
      if l.site == loc.site {
        Present(y, u, l);
        StagedMatching(site, u, l.cell, 0, t, c);
      }
    case Write(u, l, v) =>
      if l.site == loc.site {
        Present(y, u, l);
        StagedMatching(site, u, l.cell, v, t, c);
      }
    case HandlePrepare(u, s) =>
      if s == loc.site {
        PreparedMatching(site, u, t, c);
      }
    case HandleFinish(u, s) =>
      if s == loc.site {
        Gone(site, u);
        Recorded(y, u, s, c);
        FinishedMatching(site, u, y.attempts[u].phase == Committing, t, c);
      }
    case _ =>
  }

  lemma Present(y: System, t: Tid, loc: Loc)
    requires Inv(y) && CanRun(y, t, loc)
    ensures Here(y, t, loc.site) && y.sites[loc.site].txns[t].updates.Keys == y.sites[loc.site].txns[t].writeVer.Keys
  {
    hide SiteInv, Sound, Values, Within, Matches;
    assert TxnInv(y.sites, t, y.attempts[t]);
    assert Link(loc.site, y.sites[loc.site], t, y.attempts[t]);
    hide Inv;
    Recorded(y, t, loc.site, loc.cell);
  }

  lemma Gone(site: Site, t: Tid)
    requires t in site.txns
    ensures t !in AfterConfirm(site, t).txns && t !in AfterAbort(site, t).txns
  {
  }

  lemma NotYetHere(y: System, t: Tid, s: nat)
    requires Inv(y) && Enabled(y, Contact(t, s))
    ensures !Here(y, t, s) && forall c :: Loc(s, c) !in LocsOf(y, t)
  {
    hide SiteInv, Sound, Values, Within, Matches, TableReads, Staged;
    var a := y.attempts[t];
    assert TxnInv(y.sites, t, a);
    assert Link(s, y.sites[s], t, a);
    TouchedSites(a.ops, a.proxies);
  }

  /** A transaction comes to a site with nothing used there. */
  lemma BecomesHere(y: System, step: Step, t: Tid, loc: Loc)
    requires Inv(y) && Enabled(y, step) && !Here(y, t, loc.site) && Here(After(y, step), t, loc.site)
    ensures UpToDate(After(y, step), t, loc) && loc !in LocsOf(y, t)
  {
    hide Inv, LocsOf, ReadValue, PrepareOk;
    OnlyContact(y, step, t, loc.site);
    NotYetHere(y, t, loc.site);
  }

  lemma OnlyContact(y: System, step: Step, t: Tid, s: nat)
    requires Inv(y) && Enabled(y, step) && !Here(y, t, s) && Here(After(y, step), t, s)
    ensures step == Contact(t, s)
  {
    hide Inv, ReadValue, PrepareOk;
    match step
    case Read(u, l) => Present(y, u, l);
    case Write(u, l, v) => Present(y, u, l);
    case _ =>
  }

  lemma OutdatedUsed(y0: System, steps: seq<Step>, t: Tid, loc: Loc)
    requires Outdated(y0, steps, t, loc)
    ensures Used(steps, t, loc)
  {
    var i, j :| 0 <= i < j < |steps| && Uses(steps[i], t, loc) && InstalledAt(y0, steps, j, loc);
  }

  /** Where a transaction is still running, its recorded versions match exactly when nothing it used is outdated. */
  lemma {:induction false} RunUpToDate(y0: System, steps: seq<Step>, y: System, t: Tid, loc: Loc)
    requires Initial(y0) && Run(y0, steps) == Some(y) && Here(y, t, loc.site)
    ensures UpToDate(y, t, loc) <==> !Outdated(y0, steps, t, loc)
  {
    hide Inv, After, Enabled, Outdated, Used, UpToDate, Installs, LocsOf;
    if steps == [] {
      assert false;
    } else {
      var n := |steps| - 1;
      var before := Run(y0, steps[..n]).value;
      var f := Serializable(y0, steps[..n], before);
      OutdatedLast(y0, steps, t, loc);
      RunLocs(y0, steps[..n], before, t, loc);
      if Here(before, t, loc.site) {
        RunUpToDate(y0, steps[..n], before, t, loc);
        StepUpToDate(before, steps[n], t, loc);
      } else {
        BecomesHere(before, steps[n], t, loc);
        if Outdated(y0, steps[..n], t, loc) {
          OutdatedUsed(y0, steps[..n], t, loc);
        }
      }
    }
  }

  // ---- Rows held by others

  ghost predicate Records(x: Txn, c: Cell) {
    c in x.readVer || c in x.writeVer
  }

  /** Prepared `u` has a cell in a row that `t` wants, and one of the two has a write there. */
  ghost predicate Clash(site: Site, t: Tid, u: Tid, c: Cell, d: Cell)
    requires t in site.txns
  {
    && u != t && u in site.txns && site.txns[u].verified && Records(site.txns[t], c) && Records(site.txns[u], d)
    && c.row == d.row && (c in site.txns[t].writeVer || d in site.txns[u].writeVer)
  }

  ghost predicate LocksFree(site: Site, t: Tid)
    requires t in site.txns
  {
    Readable(site, t, site.txns[t].readVer) && Writable(site, t, site.txns[t].writeVer)
  }

  /** A row is held for writing, or at all, exactly by the prepared transactions with a staged cell, or any, in it. */
  lemma RowHeld(site: Site, row: nat, u: Tid)
    requires SiteInv(site) && row in site.locks
    ensures HasWrite(site.locks[row], u) <==>
      u in site.txns && site.txns[u].verified && exists d :: d in site.txns[u].writeVer && d.row == row
    ensures HasRead(site.locks[row], u) <==>
      u in site.txns && site.txns[u].verified && exists d :: Records(site.txns[u], d) && d.row == row
  {
    assert LockOk(site, row);
    if u in site.txns {
      assert TxnOk(site, site.txns[u]) && EntryOk(site, u);
      hide SiteInv;
      if site.txns[u].verified {
        RowsAre(site.txns[u], row);
      }
    }
  }

  lemma RowsAre(x: Txn, row: nat)
    ensures row in Rows(x.writeVer) <==> exists d :: d in x.writeVer && d.row == row
    ensures row in Rows(x.readVer) + Rows(x.writeVer) <==> exists d :: Records(x, d) && d.row == row
  {
    if d :| Records(x, d) && d.row == row {
      assert row in Rows(x.readVer) + Rows(x.writeVer);
    }
    if row in Rows(x.readVer) + Rows(x.writeVer) {
      var d :| (d in x.readVer || d in x.writeVer) && d.row == row;
      assert Records(x, d);
    }
  }

  lemma ClashBlocks(site: Site, t: Tid, u: Tid, c: Cell, d: Cell)
    requires SiteInv(site) && t in site.txns && !site.txns[t].verified && Clash(site, t, u, c, d)
    ensures !LocksFree(site, t)
  {
    RowsKnown(site, t);
    NothingHeldYet(site, t);
    assert Exclusive(site.locks[c.row]) by { assert LockOk(site, c.row); }
    hide SiteInv;
    RowHeld(site, c.row, u);
  }

  lemma BlockClashes(site: Site, t: Tid) returns (u: Tid, c: Cell, d: Cell)
    requires SiteInv(site) && t in site.txns && !site.txns[t].verified && !LocksFree(site, t)
    ensures Clash(site, t, u, c, d)
  {
    hide EntryOk, TxnOk, LockOk;
    RowsKnown(site, t);
    NothingHeldYet(site, t);
    var x := site.txns[t];
    hide SiteInv;
    if c0 :| c0 in x.readVer && !CanRead(site.locks[c0.row], t) {
      c := c0;
      u := site.locks[c.row].w.value;
      RowHeld(site, c.row, u);
      d :| d in site.txns[u].writeVer && d.row == c.row;
    } else {
      c :| c in x.writeVer && !CanWrite(site.locks[c.row], t);
      var l := site.locks[c.row];
      if l.w.Some? {
        u := l.w.value;
      } else {
        u :| u in l.r && u != t;
      }
      RowHeld(site, c.row, u);
      d :| Records(site.txns[u], d) && d.row == c.row;
    }
  }

  // ---- The vote of a site

  /** What a site answers when it handles the prepare request of `t` now. */
  ghost function Vote(y: System, t: Tid, s: nat): bool
    requires Enabled(y, HandlePrepare(t, s))
  {
    After(y, HandlePrepare(t, s)).attempts[t].replies[s]
  }

  /** `u` has voted yes at site `s` and is not through, it used a row that `t` used, and one of them wrote there. */
  ghost predicate Conflict(y: System, s: nat, t: Tid, u: Tid, c: Cell, d: Cell) {
    && u != t && Here(y, u, s) && y.sites[s].txns[u].verified && t in y.attempts && u in y.attempts
    && Loc(s, c) in LocsOf(y, t) && Loc(s, d) in LocsOf(y, u) && c.row == d.row
    && (Loc(s, c) in Staged(y.attempts[t].ops) || Loc(s, d) in Staged(y.attempts[u].ops))
  }

  lemma ConflictIs(y: System, s: nat, t: Tid, u: Tid, c: Cell, d: Cell)
    requires Inv(y) && Here(y, t, s)
    ensures Conflict(y, s, t, u, c, d) <==> Clash(y.sites[s], t, u, c, d)
  {
    hide Inv, Staged, TableReads, NotAhead;
    Recorded(y, t, s, c);
    if Here(y, u, s) {
      Recorded(y, u, s, d);
    }
  }

  lemma FreeIs(y: System, s: nat, t: Tid)
    requires Inv(y) && Here(y, t, s) && SiteInv(y.sites[s]) && !y.sites[s].txns[t].verified
    ensures LocksFree(y.sites[s], t) <==> forall u, c, d :: !Conflict(y, s, t, u, c, d)
  {
    hide Inv, SiteInv, Conflict, Clash, LocksFree;
    if LocksFree(y.sites[s], t) {
      forall u, c, d
        ensures !Conflict(y, s, t, u, c, d)
      {
        ConflictIs(y, s, t, u, c, d);
        if Clash(y.sites[s], t, u, c, d) {
          ClashBlocks(y.sites[s], t, u, c, d);
        }
      }
    } else {
      var u, c, d := BlockClashes(y.sites[s], t);
      ConflictIs(y, s, t, u, c, d);
    }
  }

  lemma AskedHere(y: System, t: Tid, s: nat)
    requires Inv(y) && Enabled(y, HandlePrepare(t, s))
    ensures Here(y, t, s) && SiteInv(y.sites[s]) && !y.sites[s].txns[t].verified
  {
    hide SiteInv, TxnInv;
    Deliverable(y, t, s);
  }

  lemma VoteIs(y: System, t: Tid, s: nat)
    requires Enabled(y, HandlePrepare(t, s))
    ensures Vote(y, t, s) <==> (forall c :: UpToDate(y, t, Loc(s, c))) && LocksFree(y.sites[s], t)
  {
    hide AfterPrepare, Readable, Writable;
    var x, site := y.sites[s].txns[t], y.sites[s];
    if forall c :: UpToDate(y, t, Loc(s, c)) {
      forall c | c in x.readVer || c in x.writeVer
        ensures Matching(x, site.vers, c)
      {
        assert UpToDate(y, t, Loc(s, c));
      }
    }
  }

  /**
   * In every run, a site that handles the prepare request of `t` votes yes if and only if no committed update of a cell
   * that `t` used there has been installed since, and no transaction that has voted yes there stands in the way.
   */
  lemma VoteExact(y0: System, steps: seq<Step>, y: System, t: Tid, s: nat)
    requires Initial(y0) && Run(y0, steps) == Some(y) && Enabled(y, HandlePrepare(t, s))
    ensures Vote(y, t, s) <==>
      && (forall c :: !Outdated(y0, steps, t, Loc(s, c)))
      && (forall u, c, d :: !Conflict(y, s, t, u, c, d))
  {
    hide Inv, SiteInv, Outdated, Conflict, LocksFree, UpToDate, Vote, SerialInv, Run, Initial;
    var f := Serializable(y0, steps, y);
    AskedHere(y, t, s);
    forall c
      ensures UpToDate(y, t, Loc(s, c)) <==> !Outdated(y0, steps, t, Loc(s, c))
    {
      RunUpToDate(y0, steps, y, t, Loc(s, c));
    }
    FreeIs(y, s, t);
    VoteIs(y, t, s);
  }

  /** Between the first use of a cell by a prepared transaction and now, nobody's committed update has reached it. */
  lemma PreparedUntouched(y0: System, steps: seq<Step>, y: System, t: Tid, loc: Loc)
    requires Initial(y0) && Run(y0, steps) == Some(y) && Here(y, t, loc.site) && y.sites[loc.site].txns[t].verified
    ensures !Outdated(y0, steps, t, loc)
  {
    hide Outdated, SerialInv, Run, Initial, TxnInv, HoldsRows, LockOk;
    var f := Serializable(y0, steps, y);
    assert EntryOk(y.sites[loc.site], t);
    RunUpToDate(y0, steps, y, t, loc);
  }

  // ---- The decision

  /** The step speaks against the commit of `t`: a site votes no, a request is lost, or a reply carries an error. */
  ghost predicate Against(y: System, step: Step, t: Tid) {
    match step
    case HandlePrepare(u, s) => u == t && Enabled(y, step) && !Vote(y, u, s)
    case LosePrepare(u, _) => u == t
    case PrepareReply(u, _, error) => u == t && error
    case _ => false
  }

  ghost predicate AgainstAt(y0: System, steps: seq<Step>, i: nat, t: Tid)
    requires i < |steps|
  {
    Run(y0, steps[..i]).Some? && Against(Run(y0, steps[..i]).value, steps[i], t)
  }

  ghost predicate Opposed(y0: System, steps: seq<Step>, t: Tid) {
    exists i :: 0 <= i < |steps| && AgainstAt(y0, steps, i, t)
  }

  lemma OpposedLast(y0: System, steps: seq<Step>, t: Tid)
    requires steps != []
    ensures var n := |steps| - 1; Opposed(y0, steps, t) <==> Opposed(y0, steps[..n], t) || AgainstAt(y0, steps, n, t)
  {
    hide Against, Run;
    var n := |steps| - 1;
    forall i | 0 <= i < n
      ensures AgainstAt(y0, steps[..n], i, t) <==> AgainstAt(y0, steps, i, t)
    {
      assert steps[..n][..i] == steps[..i];
    }
    if Opposed(y0, steps, t) && !AgainstAt(y0, steps, n, t) {
      var i :| 0 <= i < |steps| && AgainstAt(y0, steps, i, t);
      assert AgainstAt(y0, steps[..n], i, t);
    }
    if Opposed(y0, steps[..n], t) {
      var i :| 0 <= i < n && AgainstAt(y0, steps[..n], i, t);
      assert AgainstAt(y0, steps, i, t);
    }
  }

  /** Nothing that was said so far, counted or on its way, speaks against the commit. */
  ghost predicate Clean(a: Attempt) {
    a.commit && forall s :: s in a.replies ==> a.replies[s]
  }

  ghost predicate AllClean(y: System, t: Tid) {
    t in y.attempts ==> Clean(y.attempts[t])
  }

  lemma HandledClean(a: Attempt, s: nat, ok: bool)
    requires s !in a.replies
    ensures Clean(PrepareHandled(a, s, ok)) <==> Clean(a) && ok
    ensures !Clean(Lost(a, s))
  {
    var b, c := PrepareHandled(a, s, ok), Lost(a, s);
    assert s in b.replies && s in c.replies;
    assert forall r :: r in a.replies ==> r in b.replies && b.replies[r] == a.replies[r];
  }

  lemma RepliedClean(a: Attempt, s: nat, error: bool)
    requires s in a.replies
    ensures Clean(Replied(a, s, error)) <==> Clean(a) && !error
  {
    var b := Replied(a, s, error);
    assert forall r :: r in b.replies <==> r in a.replies && r != s;
  }

  lemma StepClean(y: System, step: Step, t: Tid)
    requires Inv(y) && Enabled(y, step)
    ensures AllClean(After(y, step), t) <==> AllClean(y, t) && !Against(y, step, t)
  {
    hide Inv, AfterRead, AfterWrite, AfterPrepare, AfterConfirm, AfterAbort, ReadValue, PrepareOk, Replied, Lost;
    match step
    case HandlePrepare(u, s) =>
      NotAnswered(y, u, s);
      HandledClean(y.attempts[u], s, PrepareOk(y.sites[s], u));
    case LosePrepare(u, s) =>
      NotAnswered(y, u, s);
      HandledClean(y.attempts[u], s, false);
    case PrepareReply(u, s, error) =>
      RepliedClean(y.attempts[u], s, error);
    case _ =>
  }

  lemma NotAnswered(y: System, t: Tid, s: nat)
    requires Inv(y) && t in y.attempts && s in y.attempts[t].toPrepare
    ensures s !in y.attempts[t].replies
  {
    hide SiteInv, Sound, Links, Values, Within;
    assert TxnInv(y.sites, t, y.attempts[t]);
  }

  lemma {:induction false} RunClean(y0: System, steps: seq<Step>, y: System, t: Tid)
    requires Initial(y0) && Run(y0, steps) == Some(y)
    ensures AllClean(y, t) <==> !Opposed(y0, steps, t)
  {
    hide Inv, After, Enabled, AllClean, Opposed, Against, Valid;
    if steps == [] {
      NotOpposedYet(y0, t);
    } else {
      var n := |steps| - 1;
      var before := Run(y0, steps[..n]).value;
      var f := Serializable(y0, steps[..n], before);
      RunClean(y0, steps[..n], before, t);
      StepClean(before, steps[n], t);
      OpposedLast(y0, steps, t);
    }
  }

  lemma NotOpposedYet(y0: System, t: Tid)
    requires Initial(y0)
    ensures AllClean(y0, t) && !Opposed(y0, [], t)
  {
  }

  /** Site `s` has answered or failed to answer the prepare request of `t`. */
  ghost predicate Asked(steps: seq<Step>, t: Tid, s: nat) {
    exists i :: 0 <= i < |steps| && (steps[i] == HandlePrepare(t, s) || steps[i] == LosePrepare(t, s))
  }

  lemma AskedLast(steps: seq<Step>, t: Tid, s: nat)
    requires steps != []
    ensures var n := |steps| - 1;
      Asked(steps, t, s) <==>
        Asked(steps[..n], t, s) || steps[n] == HandlePrepare(t, s) || steps[n] == LosePrepare(t, s)
  {
    var n := |steps| - 1;
    assert forall i :: 0 <= i < n ==> steps[..n][i] == steps[i];
    if Asked(steps[..n], t, s) {
      var i :| 0 <= i < n && (steps[..n][i] == HandlePrepare(t, s) || steps[..n][i] == LosePrepare(t, s));
      assert steps[i] == steps[..n][i];
    }
  }

  /** The sites that a transaction past its execution is not waiting for any more. */
  ghost predicate Through(y: System, t: Tid, s: nat) {
    t in y.attempts && y.attempts[t].phase != Running && s in y.attempts[t].proxies && s !in y.attempts[t].toPrepare
  }

  lemma RunningQuiet(y: System, t: Tid)
    requires Inv(y) && t in y.attempts && y.attempts[t].phase == Running
    ensures y.attempts[t].toPrepare == {} && y.attempts[t].replies == map[] && y.attempts[t].toFinish == {}
  {
    hide SiteInv, Sound, Links, Values, Within;
    assert TxnInv(y.sites, t, y.attempts[t]);
  }

  lemma StepThrough(y: System, step: Step, t: Tid, s: nat)
    requires Inv(y) && Enabled(y, step) && Through(After(y, step), t, s)
    ensures Through(y, t, s) || step == HandlePrepare(t, s) || step == LosePrepare(t, s)
  {
    hide Inv, AfterRead, AfterWrite, AfterPrepare, AfterConfirm, AfterAbort, ReadValue, PrepareOk;
    if t in y.attempts && y.attempts[t].phase == Running {
      RunningQuiet(y, t);
    }
  }

  lemma {:induction false} RunThrough(y0: System, steps: seq<Step>, y: System, t: Tid, s: nat)
    requires Initial(y0) && Run(y0, steps) == Some(y) && Through(y, t, s)
    ensures Asked(steps, t, s)
  {
    hide Inv, After, Enabled, Asked, Valid;
    if steps == [] {
      assert false;
    } else {
      var n := |steps| - 1;
      var before := Run(y0, steps[..n]).value;
      var f := Serializable(y0, steps[..n], before);
      StepThrough(before, steps[n], t, s);
      if Through(before, t, s) {
        RunThrough(y0, steps[..n], before, t, s);
      }
      AskedLast(steps, t, s);
    }
  }

  /**
   * In every run, a transaction is decided only after each site it contacted has been asked, and it commits if and only
   * if every site voted yes, no request was lost and no reply carried an error.
   */
  lemma CommitExact(y0: System, steps: seq<Step>, y: System, t: Tid)
    requires Initial(y0) && Run(y0, steps) == Some(y) && t in y.attempts && !Undecided(y.attempts[t])
    ensures y.attempts[t].phase == Committing <==> !Opposed(y0, steps, t)
    ensures forall s :: s in y.attempts[t].proxies ==> Asked(steps, t, s)
  {
    hide SiteInv, Opposed, Asked, SerialInv, Run, Initial, Sound, Links, Values, Within;
    var f := Serializable(y0, steps, y);
    RunClean(y0, steps, y, t);
    assert TxnInv(y.sites, t, y.attempts[t]);
    forall s | s in y.attempts[t].proxies
      ensures Asked(steps, t, s)
    {
      RunThrough(y0, steps, y, t, s);
    }
  }

  // ---- Versions count the updates installed

  ghost function Installed(y0: System, steps: seq<Step>, loc: Loc): nat {
    if steps == [] then 0
    else Installed(y0, steps[..|steps| - 1], loc) + if InstalledAt(y0, steps, |steps| - 1, loc) then 1 else 0
  }

  ghost function VersionAt(y: System, loc: Loc): Option<nat> {
    if loc.site in y.sites && loc.cell in y.sites[loc.site].vers then Some(y.sites[loc.site].vers[loc.cell]) else None
  }

  lemma StepVersion(y: System, step: Step, loc: Loc)
    requires Inv(y) && Enabled(y, step) && VersionAt(y, loc).Some?
    ensures VersionAt(After(y, step), loc) == Some(VersionAt(y, loc).value + if Installs(y, step, loc) then 1 else 0)
  {
    hide Inv, TableReads, Staged, NotAhead, PrepareOk, ReadValue;
    if step.HandleFinish? {
      Recorded(y, step.t, step.site, loc.cell);
    }
  }

  /** In every run the version of a cell has gone up by the number of committed updates of it that were installed. */
  lemma {:induction false} VersionCounts(y0: System, steps: seq<Step>, y: System, loc: Loc)
    requires Initial(y0) && Run(y0, steps) == Some(y) && VersionAt(y0, loc).Some?
    ensures VersionAt(y, loc) == Some(VersionAt(y0, loc).value + Installed(y0, steps, loc))
  {
    hide Inv, After, Enabled, Installs, VersionAt, Initial, SerialInv, Values;
    if steps != [] {
      var n := |steps| - 1;
      var before := Run(y0, steps[..n]).value;
      assert InstalledAt(y0, steps, n, loc) <==> Installs(before, steps[n], loc);
      hide Run, InstalledAt;
      var f := Serializable(y0, steps[..n], before);
      VersionCounts(y0, steps[..n], before, loc);
      StepVersion(before, steps[n], loc);
    }
  }
}
