/**
 * Any number of transactions, each with its coordinator, over any number of sites: execution, prepare at every site
 * contacted, the decision, and commit or abort at every site. One step is one atomic handler or reply callback.
 */
module OccSystem {
  import opened Options
  import opened Locking
  import opened OccSite
  import opened OccInv
  import opened History

  datatype Phase = Running | Preparing | Committing | Aborting

  /**
   * One attempt of a transaction: what its coordinator keeps (the sites contacted, the count of prepare replies, the
   * commit flag), the messages on their way, and the operations it has done.
   */
  datatype Attempt = Attempt(
    phase: Phase, ops: seq<Op>, proxies: set<nat>, nPrepared: nat, commit: bool,
    toPrepare: set<nat>, replies: map<nat, bool>, toFinish: set<nat>)

  /** `log` lists the transactions in the order in which commit was decided. */
  datatype System = System(sites: map<nat, Site>, attempts: map<Tid, Attempt>, log: seq<Tid>)

  datatype Step =
    | Begin(t: Tid)
    | Contact(t: Tid, site: nat)
    | Read(t: Tid, loc: Loc)
    | Write(t: Tid, loc: Loc, v: Value)
    | SendPrepare(t: Tid)
    | HandlePrepare(t: Tid, site: nat)
    | LosePrepare(t: Tid, site: nat)
    | PrepareReply(t: Tid, site: nat, error: bool)
    | HandleFinish(t: Tid, site: nat)

  const STARTED := Attempt(Running, [], {}, 0, true, {}, map[], {})

  predicate Enabled(y: System, step: Step) {
    match step
    case Begin(t) => t !in y.attempts
    case Contact(t, s) => t in y.attempts && y.attempts[t].phase == Running && s in y.sites
      && s !in y.attempts[t].proxies
    case Read(t, loc) => CanRun(y, t, loc)
    case Write(t, loc, _) => CanRun(y, t, loc)
    case SendPrepare(t) => t in y.attempts && y.attempts[t].phase == Running && y.attempts[t].proxies != {}
    case HandlePrepare(t, s) => t in y.attempts && s in y.attempts[t].toPrepare && s in y.sites && t in y.sites[s].txns
    case LosePrepare(t, s) => t in y.attempts && s in y.attempts[t].toPrepare
    case PrepareReply(t, s, _) => t in y.attempts && s in y.attempts[t].replies
    case HandleFinish(t, s) => t in y.attempts && s in y.attempts[t].toFinish && s in y.sites && t in y.sites[s].txns
  }

  predicate CanRun(y: System, t: Tid, loc: Loc) {
    && t in y.attempts && y.attempts[t].phase == Running && loc.site in y.attempts[t].proxies
    && loc.site in y.sites && loc.cell in y.sites[loc.site].values && loc.cell in y.sites[loc.site].vers
  }

  /** The prepare reply callback; the last reply decides. */
  function Replied(a: Attempt, s: nat, error: bool): Attempt
    requires s in a.replies
  {
    var b := a.(nPrepared := a.nPrepared + 1, commit := a.commit && a.replies[s] && !error, replies := a.replies - {s});
    if b.nPrepared == |b.proxies|
    then b.(phase := if b.commit then Committing else Aborting, toFinish := b.proxies)
    else b
  }

  /** A prepare request that fails before its site has handled it; the reply that comes back is a failure. */
  function Lost(a: Attempt, s: nat): Attempt {
    a.(toPrepare := a.toPrepare - {s}, replies := a.replies[s := false])
  }

  function Put(y: System, s: nat, site: Site, t: Tid, a: Attempt): System {
    y.(sites := y.sites[s := site], attempts := y.attempts[t := a])
  }

  function After(y: System, step: Step): System
    requires Enabled(y, step)
  {
    match step
    case Begin(t) => y.(attempts := y.attempts[t := STARTED])
    case Contact(t, s) =>
      var a, site := y.attempts[t], y.sites[s];
      Put(y, s, site.(txns := site.txns[t := FRESH]), t, a.(proxies := a.proxies + {s}))
    case Read(t, loc) =>
      var a, site := y.attempts[t], y.sites[loc.site];
      var op := R(loc, ReadValue(site, t, loc.cell));
      Put(y, loc.site, AfterRead(site, t, loc.cell), t, a.(ops := a.ops + [op]))
    case Write(t, loc, v) =>
      var a, site := y.attempts[t], y.sites[loc.site];
      Put(y, loc.site, AfterWrite(site, t, loc.cell, v), t, a.(ops := a.ops + [W(loc, v)]))
    case SendPrepare(t) =>
      var a := y.attempts[t];
      y.(attempts := y.attempts[t := a.(phase := Preparing, toPrepare := a.proxies)])
    case HandlePrepare(t, s) =>
      var a, site := y.attempts[t], y.sites[s];
      var ok := PrepareOk(site, t);
      Put(y, s, AfterPrepare(site, t), t, a.(toPrepare := a.toPrepare - {s}, replies := a.replies[s := ok]))
    case LosePrepare(t, s) =>
      y.(attempts := y.attempts[t := Lost(y.attempts[t], s)])
    case PrepareReply(t, s, error) =>
      var a := Replied(y.attempts[t], s, error);
      y.(attempts := y.attempts[t := a], log := if a.phase == Committing then y.log + [t] else y.log)
    case HandleFinish(t, s) =>
      var a, site := y.attempts[t], y.sites[s];
      var site' := if a.phase == Committing then AfterConfirm(site, t) else AfterAbort(site, t);
      Put(y, s, site', t, a.(toFinish := a.toFinish - {s}))
  }

  // ---- The serial run that the decisions stand for

  ghost function Values(sites: map<nat, Site>): Table {
    map s, c | s in sites && c in sites[s].values :: Loc(s, c) := sites[s].values[c]
  }

  /** The committed transactions, one after the other in decision order, each run alone. */
  ghost function Serial(f: Table, log: seq<Tid>, attempts: map<Tid, Attempt>): Option<Table>
    requires forall t :: t in log ==> t in attempts
  {
    if log == [] then Some(f)
    else
      match Serial(f, log[..|log| - 1], attempts)
      case None => None
      case Some(g) => Replay(g, attempts[log[|log| - 1]].ops)
  }

  // ---- What every step keeps

  ghost predicate AttemptOk(a: Attempt, sites: set<nat>) {
    && a.proxies <= sites && a.toPrepare <= a.proxies && a.replies.Keys <= a.proxies && a.toFinish <= a.proxies
    && a.toPrepare !! a.replies.Keys && AtSites(a.ops, a.proxies)
    && match a.phase
       case Running => a.toPrepare == {} && a.replies == map[] && a.toFinish == {} && a.nPrepared == 0 && a.commit
       case Preparing => a.toFinish == {} && a.nPrepared < |a.proxies|
         && a.nPrepared + |a.toPrepare| + |a.replies| == |a.proxies|
       case Committing => a.toPrepare == {} && a.replies == map[] && a.commit
       case Aborting => a.toPrepare == {} && a.replies == map[] && !a.commit
  }

  ghost predicate Present(a: Attempt, s: nat) {
    if a.phase == Running || a.phase == Preparing then s in a.proxies else s in a.toFinish
  }

  /** What a site has recorded for a transaction is what the transaction did there. */
  ghost predicate Matches(s: nat, x: Txn, ops: seq<Op>) {
    && (forall c :: c in x.updates <==> Loc(s, c) in Staged(ops))
    && (forall c :: c in x.updates ==> x.updates[c] == Staged(ops)[Loc(s, c)])
    && (forall c :: c in x.readVer <==> Loc(s, c) in TableReads(ops))
  }

  ghost predicate StatusOk(a: Attempt, s: nat, verified: bool) {
    match a.phase
    case Running => !verified
    case Preparing =>
      && (s in a.toPrepare ==> !verified)
      && (s in a.replies ==> verified == a.replies[s])
      && (s !in a.toPrepare && s !in a.replies && a.commit ==> verified)
    case Committing => verified
    case Aborting => true
  }

  ghost predicate Link(s: nat, site: Site, t: Tid, a: Attempt) {
    && (t in site.txns <==> Present(a, s))
    && (t in site.txns ==> Matches(s, site.txns[t], a.ops) && StatusOk(a, s, site.txns[t].verified))
  }

  /** Nothing a transaction has read has been overwritten since. */
  ghost predicate Current(sites: map<nat, Site>, t: Tid) {
    forall s :: s in sites && t in sites[s].txns ==> VersionsMatch(sites[s], sites[s].txns[t].readVer)
  }

  ghost predicate Undecided(a: Attempt) {
    a.phase == Running || a.phase == Preparing
  }

  /** As long as nothing it read has been overwritten, what an undecided transaction read is what the sites hold. */
  ghost predicate Sound(sites: map<nat, Site>, t: Tid, a: Attempt) {
    Undecided(a) && Current(sites, t) ==> ReadsMatch(a.ops, Values(sites))
  }

  ghost predicate Links(sites: map<nat, Site>, t: Tid, a: Attempt) {
    forall s :: s in sites ==> Link(s, sites[s], t, a)
  }

  ghost predicate TxnInv(sites: map<nat, Site>, t: Tid, a: Attempt) {
    AttemptOk(a, sites.Keys) && Within(a.ops, Values(sites)) && Sound(sites, t, a) && Links(sites, t, a)
  }

  ghost predicate Decided(y: System, t: Tid) {
    t in y.attempts && y.attempts[t].phase == Committing
  }

  ghost predicate Inv(y: System) {
    && (forall s :: s in y.sites ==> SiteInv(y.sites[s]))
    && (forall s, t :: s in y.sites && t in y.sites[s].txns ==> t in y.attempts)
    && (forall t :: t in y.attempts ==> TxnInv(y.sites, t, y.attempts[t]))
    && (forall t :: t in y.log <==> Decided(y, t))
  }

  /** A committed update that has not reached its site yet. */
  ghost predicate Pending(y: System, t: Tid, s: nat, c: Cell)
    requires s in y.sites
  {
    t in y.sites[s].txns && Decided(y, t) && c in y.sites[s].txns[t].updates
  }

  /** The serial table is what the sites hold, with the committed updates that are still on their way. */
  ghost predicate SerialAt(y: System, f: Table, s: nat, c: Cell)
    requires s in y.sites && c in y.sites[s].values
  {
    && Loc(s, c) in f
    && (forall t :: Pending(y, t, s, c) ==> f[Loc(s, c)] == y.sites[s].txns[t].updates[c])
    && ((forall t :: !Pending(y, t, s, c)) ==> f[Loc(s, c)] == y.sites[s].values[c])
  }

  ghost predicate SerialMatches(y: System, f: Table) {
    && f.Keys == Values(y.sites).Keys
    && forall s, c :: s in y.sites && c in y.sites[s].values ==> SerialAt(y, f, s, c)
  }
}
