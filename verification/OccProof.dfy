/** Every step keeps the invariant, and the committed transactions run alone in decision order. */
module OccProof {
  import opened Locking
  import opened OccSite
  import opened OccInv
  import opened History
  import opened OccSystem

  lemma ValueAt(sites: map<nat, Site>, s: nat, c: Cell)
    ensures Loc(s, c) in Values(sites) <==> s in sites && c in sites[s].values
    ensures Loc(s, c) in Values(sites) ==> Values(sites)[Loc(s, c)] == sites[s].values[c]
  {
  }

  /** `y'` differs from `y` at one site and one attempt, and the site's handler was run for that attempt. */
  ghost predicate OneSite(y: System, y': System, s: nat, t: Tid) {
    && s in y.sites && y'.sites.Keys == y.sites.Keys && y'.sites == y.sites[s := y'.sites[s]]
    && t in y'.attempts && y'.attempts == y.attempts[t := y'.attempts[t]]
    && OthersSame(y.sites[s], y'.sites[s], t) && Forward(y.sites[s], y'.sites[s]) && SiteInv(y'.sites[s])
  }

  lemma SamePlaces(y: System, y': System, s: nat, t: Tid)
    requires OneSite(y, y', s, t)
    ensures Values(y'.sites).Keys == Values(y.sites).Keys
  {
    forall loc: Loc
      ensures loc in Values(y'.sites) <==> loc in Values(y.sites)
    {
      ValueAt(y.sites, loc.site, loc.cell);
      ValueAt(y'.sites, loc.site, loc.cell);
    }
  }

  /** If nothing a bystander read is outdated now, nothing was outdated before, and its values are still there. */
  lemma StillCurrent(y: System, y': System, s: nat, t: Tid, u: Tid)
    requires OneSite(y, y', s, t) && SiteInv(y.sites[s]) && u != t && Current(y'.sites, u)
    ensures Current(y.sites, u)
    ensures forall c :: u in y.sites[s].txns && c in y.sites[s].txns[u].readVer && c in y.sites[s].values ==>
      y'.sites[s].values[c] == y.sites[s].values[c]
  {
    hide Valid, Guarded;
    if u in y.sites[s].txns {
      assert EntryOk(y.sites[s], u);
      assert VersionsMatch(y'.sites[s], y'.sites[s].txns[u].readVer);
    }
    forall s2 | s2 in y.sites && u in y.sites[s2].txns
      ensures VersionsMatch(y.sites[s2], y.sites[s2].txns[u].readVer)
    {
      assert VersionsMatch(y'.sites[s2], y'.sites[s2].txns[u].readVer);
    }
  }

  lemma BystanderRead(y: System, y': System, s: nat, t: Tid, u: Tid, loc: Loc)
    requires Inv(y) && OneSite(y, y', s, t) && u != t && u in y.attempts && Current(y'.sites, u)
    requires Undecided(y.attempts[u])
    requires loc in TableReads(y.attempts[u].ops) && loc in Values(y.sites)
    ensures loc in Values(y'.sites) && Values(y'.sites)[loc] == Values(y.sites)[loc]
  {
    hide SiteInv, Forward, Values, TableReads, Staged, StatusOk;
    var a := y.attempts[u];
    assert TxnInv(y.sites, u, y.attempts[u]);
    SamePlaces(y, y', s, t);
    TouchedSites(a.ops, a.proxies);
    ValueAt(y.sites, loc.site, loc.cell);
    ValueAt(y'.sites, loc.site, loc.cell);
    StillCurrent(y, y', s, t, u);
    assert Link(loc.site, y.sites[loc.site], u, a);
  }

  lemma BystanderSound(y: System, y': System, s: nat, t: Tid, u: Tid)
    requires Inv(y) && OneSite(y, y', s, t) && u != t && u in y.attempts
    ensures Sound(y'.sites, u, y'.attempts[u])
  {
    var a := y.attempts[u];
    if Undecided(a) && Current(y'.sites, u) {
      assert TxnInv(y.sites, u, y.attempts[u]);
      StillCurrent(y, y', s, t, u);
      hide *;
      forall loc | loc in TableReads(a.ops) && loc in Values(y.sites)
        ensures loc in Values(y'.sites) && Values(y'.sites)[loc] == Values(y.sites)[loc]
      {
        BystanderRead(y, y', s, t, u, loc);
      }
      SameReads(a.ops, Values(y.sites), Values(y'.sites));
    }
  }

  lemma BystanderInv(y: System, y': System, s: nat, t: Tid, u: Tid)
    requires Inv(y) && OneSite(y, y', s, t) && u != t && u in y.attempts
    ensures TxnInv(y'.sites, u, y'.attempts[u])
  {
    hide SiteInv, Forward, Sound, Matches, StatusOk, AttemptOk, Values;
    assert TxnInv(y.sites, u, y.attempts[u]);
    BystanderSound(y, y', s, t, u);
    SamePlaces(y, y', s, t);
    forall s2 | s2 in y'.sites
      ensures Link(s2, y'.sites[s2], u, y'.attempts[u])
    {
      assert Link(s2, y.sites[s2], u, y.attempts[u]);
    }
  }

  lemma OneSiteInv(y: System, y': System, s: nat, t: Tid)
    requires Inv(y) && OneSite(y, y', s, t) && t in y.attempts && TxnInv(y'.sites, t, y'.attempts[t])
    requires y'.log == y.log && (Decided(y, t) <==> Decided(y', t))
    ensures Inv(y')
  {
    hide TxnInv, SiteInv, Forward;
    forall u | u in y'.attempts
      ensures TxnInv(y'.sites, u, y'.attempts[u])
    {
      if u != t {
        BystanderInv(y, y', s, t, u);
      }
    }
    forall s2, u | s2 in y'.sites && u in y'.sites[s2].txns
      ensures u in y'.attempts
    {
      assert u != t ==> u in y.sites[s2].txns;
    }
    assert forall u :: Decided(y, u) <==> Decided(y', u);
  }

  lemma NoSiteInv(y: System, y': System, t: Tid)
    requires Inv(y) && y'.sites == y.sites && t in y'.attempts && y'.attempts == y.attempts[t := y'.attempts[t]]
    requires TxnInv(y'.sites, t, y'.attempts[t]) && forall u :: u in y'.log <==> Decided(y', u)
    ensures Inv(y')
  {
    hide TxnInv, SiteInv;
  }

  lemma SameValues(y: System, y': System, s: nat, t: Tid)
    requires OneSite(y, y', s, t) && SameTable(y.sites[s], y'.sites[s])
    ensures Values(y'.sites) == Values(y.sites)
  {
    SamePlaces(y, y', s, t);
    forall loc | loc in Values(y.sites)
      ensures Values(y'.sites)[loc] == Values(y.sites)[loc]
    {
      ValueAt(y.sites, loc.site, loc.cell);
      ValueAt(y'.sites, loc.site, loc.cell);
    }
  }

  lemma BeginInv(y: System, t: Tid)
    requires Inv(y) && Enabled(y, Begin(t))
    ensures Inv(After(y, Begin(t)))
  {
    hide SiteInv, TxnInv;
    BeginTxn(y.sites, t);
    NoSiteInv(y, After(y, Begin(t)), t);
  }

  lemma BeginTxn(sites: map<nat, Site>, t: Tid)
    requires forall s :: s in sites ==> t !in sites[s].txns
    ensures TxnInv(sites, t, STARTED)
  {
  }

  lemma SendPrepareInv(y: System, t: Tid)
    requires Inv(y) && Enabled(y, SendPrepare(t))
    ensures Inv(After(y, SendPrepare(t)))
  {
    hide SiteInv, TxnInv;
    SendPrepareTxn(y.sites, t, y.attempts[t]);
    NoSiteInv(y, After(y, SendPrepare(t)), t);
  }

  lemma SendPrepareTxn(sites: map<nat, Site>, t: Tid, a: Attempt)
    requires TxnInv(sites, t, a) && a.phase == Running && a.proxies != {}
    ensures TxnInv(sites, t, a.(phase := Preparing, toPrepare := a.proxies))
  {
    hide Matches, Values;
    var a' := a.(phase := Preparing, toPrepare := a.proxies);
    forall s | s in sites
      ensures Link(s, sites[s], t, a')
    {
      assert Link(s, sites[s], t, a);
    }
  }

  /** The part of the invariant that a step on one site and one attempt is about. */
  ghost predicate Local(y: System, s: nat, t: Tid) {
    s in y.sites && SiteInv(y.sites[s]) && t in y.attempts && TxnInv(y.sites, t, y.attempts[t])
  }

  lemma StepInv(y: System, s: nat, site: Site, t: Tid, a: Attempt)
    requires Inv(y) && OneSite(y, Put(y, s, site, t, a), s, t) && t in y.attempts && a.phase == y.attempts[t].phase
    requires TxnInv(Put(y, s, site, t, a).sites, t, a)
    ensures Inv(Put(y, s, site, t, a))
  {
    hide SiteInv, TxnInv, OneSite;
    var y' := Put(y, s, site, t, a);
    assert y'.attempts[t] == a;
    OneSiteInv(y, y', s, t);
  }

  lemma PutOneSite(y: System, s: nat, site: Site, t: Tid, a: Attempt)
    requires s in y.sites && OthersSame(y.sites[s], site, t) && Forward(y.sites[s], site) && SiteInv(site)
    ensures OneSite(y, Put(y, s, site, t, a), s, t)
  {
    hide SiteInv, Forward, OthersSame;
    var y' := Put(y, s, site, t, a);
    assert y'.sites.Keys == y.sites.Keys;
  }

  /** The handler has not forgotten anything `t` read. */
  ghost predicate KeepsReads(site: Site, site': Site, t: Tid) {
    t in site.txns ==> t in site'.txns && forall c :: c in site.txns[t].readVer ==>
      c in site'.txns[t].readVer && site'.txns[t].readVer[c] == site.txns[t].readVer[c]
  }

  lemma CurrentBack(y: System, y': System, s: nat, t: Tid)
    requires OneSite(y, y', s, t) && SameTable(y.sites[s], y'.sites[s]) && KeepsReads(y.sites[s], y'.sites[s], t)
    ensures Current(y'.sites, t) ==> Current(y.sites, t)
  {
    hide SiteInv, OthersSame, Forward;
    if Current(y'.sites, t) {
      forall s2 | s2 in y.sites && t in y.sites[s2].txns
        ensures VersionsMatch(y.sites[s2], y.sites[s2].txns[t].readVer)
      {
        assert t in y'.sites[s2].txns && VersionsMatch(y'.sites[s2], y'.sites[s2].txns[t].readVer);
      }
    }
  }

  lemma SameTableForward(site: Site, site': Site)
    requires SameTable(site, site')
    ensures Forward(site, site')
  {
  }

  /** A handler that leaves the table alone, run for `t`. */
  lemma QuietStep(y: System, s: nat, site': Site, t: Tid, a': Attempt)
    requires Local(y, s, t) && OthersSame(y.sites[s], site', t) && SameTable(y.sites[s], site') && SiteInv(site')
    requires KeepsReads(y.sites[s], site', t) && a'.phase == y.attempts[t].phase
    requires AttemptOk(a', y.sites.Keys) && Links(Put(y, s, site', t, a').sites, t, a')
    requires Within(a'.ops, Values(y.sites))
    requires ReadsMatch(y.attempts[t].ops, Values(y.sites)) ==> ReadsMatch(a'.ops, Values(y.sites))
    ensures OneSite(y, Put(y, s, site', t, a'), s, t)
    ensures TxnInv(Put(y, s, site', t, a').sites, t, a')
  {
    hide SiteInv, Values, OneSite, OthersSame, KeepsReads, AttemptOk, Links;
    hide SameTable, Forward, Current, ReadsMatch, Within;
    var y' := Put(y, s, site', t, a');
    assert y'.sites[s] == site';
    SameTableForward(y.sites[s], site');
    PutOneSite(y, s, site', t, a');
    SameValues(y, y', s, t);
    CurrentBack(y, y', s, t);
    assert y'.sites.Keys == y.sites.Keys;
  }

  lemma ContactInv(y: System, t: Tid, s: nat)
    requires Inv(y) && Enabled(y, Contact(t, s))
    ensures Inv(After(y, Contact(t, s))) && OneSite(y, After(y, Contact(t, s)), s, t)
  {
    assert Local(y, s, t);
    hide SiteInv, TxnInv, OneSite;
    var a, site := y.attempts[t], y.sites[s];
    var site', a' := site.(txns := site.txns[t := FRESH]), a.(proxies := a.proxies + {s});
    ContactTxn(y, t, s);
    QuietStep(y, s, site', t, a');
    StepInv(y, s, site', t, a');
  }

  lemma ContactTxn(y: System, t: Tid, s: nat)
    requires Enabled(y, Contact(t, s)) && Local(y, s, t)
    ensures var site := y.sites[s]; var site' := site.(txns := site.txns[t := FRESH]);
      var a' := y.attempts[t].(proxies := y.attempts[t].proxies + {s});
      && SiteInv(site') && OthersSame(site, site', t) && SameTable(site, site') && KeepsReads(site, site', t)
      && AttemptOk(a', y.sites.Keys) && Links(y.sites[s := site'], t, a')
  {
    hide SiteInv, Values, Sound;
    var a, site := y.attempts[t], y.sites[s];
    assert Link(s, site, t, a);
    hide Links, Link, Matches;
    ContactSite(site, t);
    ContactLinks(y.sites, t, a, s);
  }

  lemma ContactLinks(sites: map<nat, Site>, t: Tid, a: Attempt, s: nat)
    requires Links(sites, t, a) && a.phase == Running && s in sites && s !in a.proxies && AtSites(a.ops, a.proxies)
    ensures Links(sites[s := sites[s].(txns := sites[s].txns[t := FRESH])], t, a.(proxies := a.proxies + {s}))
  {
    hide TableReads, Staged;
    var site', a' := sites[s].(txns := sites[s].txns[t := FRESH]), a.(proxies := a.proxies + {s});
    TouchedSites(a.ops, a.proxies);
    assert Matches(s, FRESH, a.ops);
    forall s2 | s2 in sites
      ensures Link(s2, sites[s := site'][s2], t, a')
    {
      assert Link(s2, sites[s2], t, a);
    }
  }

  lemma ContactSite(site: Site, t: Tid)
    requires SiteInv(site) && t !in site.txns
    ensures SiteInv(site.(txns := site.txns[t := FRESH]))
  {
    StageKeeps(site, site.(txns := site.txns[t := FRESH]), t);
  }

  lemma ReadInv(y: System, t: Tid, loc: Loc)
    requires Inv(y) && Enabled(y, Read(t, loc))
    ensures Inv(After(y, Read(t, loc))) && OneSite(y, After(y, Read(t, loc)), loc.site, t)
  {
    hide SiteInv, TxnInv, OneSite, AfterRead, AfterWrite, Links, AttemptOk;
    hide Within, ReadsMatch, OthersSame, KeepsReads, Values;
    assert Local(y, loc.site, t);
    var a, site := y.attempts[t], y.sites[loc.site];
    var op := R(loc, ReadValue(site, t, loc.cell));
    var site', a' := AfterRead(site, t, loc.cell), a.(ops := a.ops + [op]);
    ReadTxn(y, t, loc);
    QuietStep(y, loc.site, site', t, a');
    StepInv(y, loc.site, site', t, a');
  }

  lemma ReadTxn(y: System, t: Tid, loc: Loc)
    requires Enabled(y, Read(t, loc)) && Local(y, loc.site, t)
    ensures var site := y.sites[loc.site]; var site' := AfterRead(site, t, loc.cell);
      var a' := y.attempts[t].(ops := y.attempts[t].ops + [R(loc, ReadValue(site, t, loc.cell))]);
      && SiteInv(site') && OthersSame(site, site', t) && SameTable(site, site') && KeepsReads(site, site', t)
      && AttemptOk(a', y.sites.Keys) && Links(y.sites[loc.site := site'], t, a') && Within(a'.ops, Values(y.sites))
      && (ReadsMatch(y.attempts[t].ops, Values(y.sites)) ==> ReadsMatch(a'.ops, Values(y.sites)))
  {
    hide SiteInv, Sound, Values, AfterRead, SameTable, OthersSame, KeepsReads, ReadsMatch, Staged, TableReads;
    var a, site := y.attempts[t], y.sites[loc.site];
    var op := R(loc, ReadValue(site, t, loc.cell));
    assert Link(loc.site, site, t, a);
    StagedQuietly(site, t, loc.cell, 0);
    OneMore(a.ops, op, Values(y.sites));
    ValueAt(y.sites, loc.site, loc.cell);
    assert SeenIn(op, Staged(a.ops), Values(y.sites));
    ReadMatches(site, t, a.ops, loc);
    hide Links, Matches;
    ReadKeeps(site, t, loc.cell);
    OpLinks(y.sites, t, a, op, AfterRead(site, t, loc.cell));
  }

  lemma StagedQuietly(site: Site, t: Tid, c: Cell, v: Value)
    requires t in site.txns && !site.txns[t].verified && c in site.vers
    ensures SameTable(site, AfterRead(site, t, c)) && KeepsReads(site, AfterRead(site, t, c), t)
    ensures !AfterRead(site, t, c).txns[t].verified
    ensures SameTable(site, AfterWrite(site, t, c, v)) && KeepsReads(site, AfterWrite(site, t, c, v), t)
    ensures !AfterWrite(site, t, c, v).txns[t].verified
  {
  }

  /** Operations at another site leave what is recorded here. */
  lemma ElsewhereMatches(s: nat, x: Txn, ops: seq<Op>, op: Op)
    requires Matches(s, x, ops) && op.loc.site != s
    ensures Matches(s, x, ops + [op])
  {
    hide TableReads, Staged;
    OneMore(ops, op, map[]);
  }

  lemma ReadMatches(site: Site, t: Tid, ops: seq<Op>, loc: Loc)
    requires t in site.txns && Matches(loc.site, site.txns[t], ops) && loc.cell in site.values && loc.cell in site.vers
    ensures Matches(loc.site, AfterRead(site, t, loc.cell).txns[t], ops + [R(loc, ReadValue(site, t, loc.cell))])
  {
    hide TableReads, Staged;
    OneMore(ops, R(loc, ReadValue(site, t, loc.cell)), map[]);
  }

  lemma WriteMatches(site: Site, t: Tid, ops: seq<Op>, loc: Loc, v: Value)
    requires t in site.txns && Matches(loc.site, site.txns[t], ops) && loc.cell in site.vers
    ensures Matches(loc.site, AfterWrite(site, t, loc.cell, v).txns[t], ops + [W(loc, v)])
  {
    hide TableReads, Staged;
    OneMore(ops, W(loc, v), map[]);
  }

  /** Both kinds of operation: the site touched records it, the others are as before. */
  lemma OpLinks(sites: map<nat, Site>, t: Tid, a: Attempt, op: Op, site': Site)
    requires Links(sites, t, a) && a.phase == Running && op.loc.site in sites && op.loc.site in a.proxies
    requires t in site'.txns && Matches(op.loc.site, site'.txns[t], a.ops + [op]) && !site'.txns[t].verified
    ensures Links(sites[op.loc.site := site'], t, a.(ops := a.ops + [op]))
  {
    hide Matches;
    var a' := a.(ops := a.ops + [op]);
    forall s2 | s2 in sites
      ensures Link(s2, sites[op.loc.site := site'][s2], t, a')
    {
      assert Link(s2, sites[s2], t, a);
      if s2 != op.loc.site && t in sites[s2].txns {
        ElsewhereMatches(s2, sites[s2].txns[t], a.ops, op);
      }
    }
  }

  lemma WriteInv(y: System, t: Tid, loc: Loc, v: Value)
    requires Inv(y) && Enabled(y, Write(t, loc, v))
    ensures Inv(After(y, Write(t, loc, v))) && OneSite(y, After(y, Write(t, loc, v)), loc.site, t)
  {
    hide SiteInv, TxnInv, OneSite, AfterRead, AfterWrite, Links, AttemptOk;
    hide Within, ReadsMatch, OthersSame, KeepsReads, Values;
    assert Local(y, loc.site, t);
    var a, site := y.attempts[t], y.sites[loc.site];
    var site', a' := AfterWrite(site, t, loc.cell, v), a.(ops := a.ops + [W(loc, v)]);
    WriteTxn(y, t, loc, v);
    QuietStep(y, loc.site, site', t, a');
    StepInv(y, loc.site, site', t, a');
  }

  lemma WriteTxn(y: System, t: Tid, loc: Loc, v: Value)
    requires Enabled(y, Write(t, loc, v)) && Local(y, loc.site, t)
    ensures var site := y.sites[loc.site]; var site' := AfterWrite(site, t, loc.cell, v);
      var a' := y.attempts[t].(ops := y.attempts[t].ops + [W(loc, v)]);
      && SiteInv(site') && OthersSame(site, site', t) && SameTable(site, site') && KeepsReads(site, site', t)
      && AttemptOk(a', y.sites.Keys) && Links(y.sites[loc.site := site'], t, a') && Within(a'.ops, Values(y.sites))
      && (ReadsMatch(y.attempts[t].ops, Values(y.sites)) ==> ReadsMatch(a'.ops, Values(y.sites)))
  {
    hide SiteInv, Sound, Values, AfterWrite, SameTable, OthersSame, KeepsReads, ReadsMatch, Staged, TableReads;
    var a, site := y.attempts[t], y.sites[loc.site];
    assert Link(loc.site, site, t, a);
    StagedQuietly(site, t, loc.cell, v);
    OneMore(a.ops, W(loc, v), Values(y.sites));
    ValueAt(y.sites, loc.site, loc.cell);
    WriteMatches(site, t, a.ops, loc, v);
    hide Links, Matches;
    WriteKeeps(site, t, loc.cell, v);
    OpLinks(y.sites, t, a, W(loc, v), AfterWrite(site, t, loc.cell, v));
  }

  lemma PrepareInv(y: System, t: Tid, s: nat)
    requires Inv(y) && Enabled(y, HandlePrepare(t, s))
    ensures Inv(After(y, HandlePrepare(t, s))) && OneSite(y, After(y, HandlePrepare(t, s)), s, t)
  {
    hide SiteInv, TxnInv, OneSite, AfterPrepare, PrepareOk, Links, AttemptOk;
    hide Within, ReadsMatch, OthersSame, KeepsReads, SameTable, Values;
    assert Local(y, s, t);
    var a, site := y.attempts[t], y.sites[s];
    var site', a' := AfterPrepare(site, t), PrepareHandled(a, s, PrepareOk(site, t));
    PrepareTxn(y, t, s);
    QuietStep(y, s, site', t, a');
    StepInv(y, s, site', t, a');
  }

  ghost function PrepareHandled(a: Attempt, s: nat, ok: bool): Attempt {
    a.(toPrepare := a.toPrepare - {s}, replies := a.replies[s := ok])
  }

  lemma PrepareTxn(y: System, t: Tid, s: nat)
    requires Enabled(y, HandlePrepare(t, s)) && Local(y, s, t)
    ensures var site := y.sites[s]; var site' := AfterPrepare(site, t);
      var a' := PrepareHandled(y.attempts[t], s, PrepareOk(site, t));
      && SiteInv(site') && OthersSame(site, site', t) && SameTable(site, site') && KeepsReads(site, site', t)
      && AttemptOk(a', y.sites.Keys) && Links(y.sites[s := site'], t, a') && Within(a'.ops, Values(y.sites))
  {
    hide SiteInv, Sound, Values, SameTable, OthersSame, KeepsReads, Matches, PrepareOk;
    var a, site := y.attempts[t], y.sites[s];
    assert Link(s, site, t, a);
    PrepareKeeps(site, t);
    PreparedEntry(site, t);
    hide AfterPrepare, Links;
    HandledOk(a, y.sites.Keys, s, PrepareOk(site, t));
    PrepareLinks(y.sites, t, a, s, AfterPrepare(site, t), PrepareOk(site, t));
  }

  lemma PreparedEntry(site: Site, t: Tid)
    requires t in site.txns && !site.txns[t].verified
    ensures t in AfterPrepare(site, t).txns && AfterPrepare(site, t).txns[t].verified == PrepareOk(site, t)
    ensures AfterPrepare(site, t).txns[t].updates == site.txns[t].updates
    ensures AfterPrepare(site, t).txns[t].readVer == site.txns[t].readVer
    ensures KeepsReads(site, AfterPrepare(site, t), t)
  {
    hide PrepareOk;
  }

  lemma HandledOk(a: Attempt, sites: set<nat>, s: nat, ok: bool)
    requires AttemptOk(a, sites) && s in a.toPrepare
    ensures AttemptOk(PrepareHandled(a, s, ok), sites) && a.phase == Preparing
  {
    assert |a.replies[s := ok]| == |a.replies| + 1 by {
      assert a.replies[s := ok].Keys == a.replies.Keys + {s};
    }
  }

  lemma PrepareLinks(sites: map<nat, Site>, t: Tid, a: Attempt, s: nat, site': Site, ok: bool)
    requires Links(sites, t, a) && a.phase == Preparing && s in sites && s in a.proxies && t in sites[s].txns
    requires t in site'.txns
    requires site'.txns[t].updates == sites[s].txns[t].updates && site'.txns[t].readVer == sites[s].txns[t].readVer
    requires site'.txns[t].verified == ok
    ensures Links(sites[s := site'], t, PrepareHandled(a, s, ok))
  {
    hide Staged, TableReads;
    forall s2 | s2 in sites
      ensures Link(s2, sites[s := site'][s2], t, PrepareHandled(a, s, ok))
    {
      assert Link(s2, sites[s2], t, a);
    }
  }

  lemma LoseInv(y: System, t: Tid, s: nat)
    requires Inv(y) && Enabled(y, LosePrepare(t, s))
    ensures Inv(After(y, LosePrepare(t, s)))
  {
    hide SiteInv, TxnInv, Lost;
    var y' := After(y, LosePrepare(t, s));
    assert TxnInv(y.sites, t, y.attempts[t]);
    LoseTxn(y.sites, t, y.attempts[t], s);
    assert forall u :: Decided(y', u) <==> Decided(y, u);
    NoSiteInv(y, y', t);
  }

  lemma LoseTxn(sites: map<nat, Site>, t: Tid, a: Attempt, s: nat)
    requires TxnInv(sites, t, a) && s in a.toPrepare
    ensures a.phase == Preparing && Lost(a, s).phase == Preparing && TxnInv(sites, t, Lost(a, s))
  {
    hide Link, AttemptOk, Values, Current, ReadsMatch, Within;
    LostOk(a, sites.Keys, s);
    forall s2 | s2 in sites
      ensures Link(s2, sites[s2], t, Lost(a, s))
    {
      LostLink(s2, sites[s2], t, a, s);
    }
  }

  /** The site stays unprepared, and the failure on its way says so. */
  lemma LostLink(s2: nat, site: Site, t: Tid, a: Attempt, s: nat)
    requires Link(s2, site, t, a) && a.phase == Preparing && s in a.toPrepare
    ensures Link(s2, site, t, Lost(a, s))
  {
    hide Matches;
  }

  lemma LostOk(a: Attempt, sites: set<nat>, s: nat)
    requires AttemptOk(a, sites) && s in a.toPrepare
    ensures a.phase == Preparing && AttemptOk(Lost(a, s), sites)
  {
    assert s !in a.replies;
    assert |a.toPrepare - {s}| == |a.toPrepare| - 1;
    assert a.replies[s := false].Keys == a.replies.Keys + {s};
    assert |a.replies[s := false]| == |a.replies| + 1;
  }

  lemma ReplyInv(y: System, t: Tid, s: nat, error: bool)
    requires Inv(y) && Enabled(y, PrepareReply(t, s, error))
    ensures Inv(After(y, PrepareReply(t, s, error)))
  {
    hide SiteInv, TxnInv, Replied;
    var y' := After(y, PrepareReply(t, s, error));
    var a := y.attempts[t];
    assert TxnInv(y.sites, t, a);
    ReplyTxn(y.sites, t, a, s, error);
    assert forall u :: u != t ==> (Decided(y', u) <==> Decided(y, u));
    assert !Decided(y, t) && (Decided(y', t) <==> y'.attempts[t].phase == Committing);
    NoSiteInv(y, y', t);
  }

  lemma ReplyTxn(sites: map<nat, Site>, t: Tid, a: Attempt, s: nat, error: bool)
    requires TxnInv(sites, t, a) && s in a.replies
    ensures a.phase == Preparing && TxnInv(sites, t, Replied(a, s, error))
  {
    hide Link, AttemptOk, Values, Current, ReadsMatch, Within;
    RepliedOk(a, sites.Keys, s, error);
    forall s2 | s2 in sites
      ensures Link(s2, sites[s2], t, Replied(a, s, error))
    {
      RepliedLink(s2, sites[s2], t, a, s, error);
    }
  }

  lemma RepliedLink(s2: nat, site: Site, t: Tid, a: Attempt, s: nat, error: bool)
    requires Link(s2, site, t, a) && a.phase == Preparing && s in a.replies
    requires Replied(a, s, error).phase != Preparing ==> a.toPrepare == {} && a.replies.Keys == {s}
    ensures Link(s2, site, t, Replied(a, s, error))
  {
    hide Matches;
  }

  /** Counting replies: the last one is in exactly when none is missing. */
  lemma RepliedOk(a: Attempt, sites: set<nat>, s: nat, error: bool)
    requires AttemptOk(a, sites) && s in a.replies
    ensures a.phase == Preparing && AttemptOk(Replied(a, s, error), sites)
    ensures Replied(a, s, error).phase != Preparing ==> a.toPrepare == {} && a.replies.Keys == {s}
  {
    var left := a.replies - {s};
    assert left.Keys == a.replies.Keys - {s};
    assert |left| == |a.replies| - 1;
    if a.nPrepared + 1 == |a.proxies| {
      assert |a.toPrepare| == 0 && |left.Keys| == 0;
      assert left == map[];
    }
  }

  lemma FinishInv(y: System, t: Tid, s: nat)
    requires Inv(y) && Enabled(y, HandleFinish(t, s))
    ensures Inv(After(y, HandleFinish(t, s))) && OneSite(y, After(y, HandleFinish(t, s)), s, t)
  {
    hide SiteInv, TxnInv, OneSite, OthersSame, Forward, AfterConfirm, AfterAbort;
    assert Local(y, s, t);
    var a, site := y.attempts[t], y.sites[s];
    var site', a' := Finished(site, t, a.phase), a.(toFinish := a.toFinish - {s});
    FinishSite(y, t, s);
    PutOneSite(y, s, site', t, a');
    FinishTxn(y, t, s);
    StepInv(y, s, site', t, a');
  }

  ghost function Finished(site: Site, t: Tid, phase: Phase): Site
    requires t in site.txns
  {
    if phase == Committing then AfterConfirm(site, t) else AfterAbort(site, t)
  }

  lemma FinishSite(y: System, t: Tid, s: nat)
    requires Enabled(y, HandleFinish(t, s)) && Local(y, s, t)
    ensures var site := y.sites[s]; var site' := Finished(site, t, y.attempts[t].phase);
      SiteInv(site') && OthersSame(site, site', t) && Forward(site, site') && t !in site'.txns
    ensures !Undecided(y.attempts[t]) && (y.attempts[t].phase == Committing ==> y.sites[s].txns[t].verified)
  {
    var a, site := y.attempts[t], y.sites[s];
    assert Link(s, site, t, a);
    hide SiteInv, OthersSame, Forward;
    if a.phase == Committing {
      ConfirmKeeps(site, t);
    } else {
      AbortKeeps(site, t);
      SameTableForward(site, AfterAbort(site, t));
    }
  }

  lemma FinishTxn(y: System, t: Tid, s: nat)
    requires Enabled(y, HandleFinish(t, s)) && Local(y, s, t) && !Undecided(y.attempts[t])
    requires OneSite(y, After(y, HandleFinish(t, s)), s, t) && t !in After(y, HandleFinish(t, s)).sites[s].txns
    ensures TxnInv(After(y, HandleFinish(t, s)).sites, t, y.attempts[t].(toFinish := y.attempts[t].toFinish - {s}))
  {
    var y' := After(y, HandleFinish(t, s));
    var a := y.attempts[t];
    SamePlaces(y, y', s, t);
    hide SiteInv, Matches, Values, OthersSame, Forward;
    forall s2 | s2 in y'.sites
      ensures Link(s2, y'.sites[s2], t, a.(toFinish := a.toFinish - {s}))
    {
      assert Link(s2, y.sites[s2], t, a);
    }
  }

  /**
   * A message on its way finds its transaction at the site, and in the state the handler insists on: not yet prepared
   * when asked to prepare, prepared when told to commit.
   */
  lemma Deliverable(y: System, t: Tid, s: nat)
    requires Inv(y) && t in y.attempts
    ensures s in y.attempts[t].toPrepare ==> Enabled(y, HandlePrepare(t, s)) && !y.sites[s].txns[t].verified
    ensures s in y.attempts[t].toFinish ==>
      Enabled(y, HandleFinish(t, s)) && (y.attempts[t].phase == Committing ==> y.sites[s].txns[t].verified)
  {
    hide SiteInv, Sound;
    assert TxnInv(y.sites, t, y.attempts[t]);
    if s in y.sites {
      assert Link(s, y.sites[s], t, y.attempts[t]);
    }
  }
}
