/** What every handler keeps true of a site. */
module OccInv {
  import opened Locking
  import opened OccSite

  /** A recorded version is never ahead of the table. */
  ghost predicate NotAhead(s: Site, m: map<Cell, nat>) {
    forall c :: c in m ==> c in s.vers && m[c] <= s.vers[c]
  }

  /** The rows of all recorded cells are locked, those and no others, and for writing exactly where cells are staged. */
  ghost predicate HoldsRows(locks: map<nat, Lock>, t: Tid, x: Txn) {
    && (forall c :: c in x.readVer ==> c.row in locks && HasRead(locks[c.row], t))
    && (forall c :: c in x.updates ==> c.row in locks && HasWrite(locks[c.row], t))
    && x.locks == Rows(x.readVer) + Rows(x.writeVer)
    && (forall row :: row in locks && HasWrite(locks[row], t) ==> row in Rows(x.writeVer))
  }

  /** What prepare established still holds. */
  ghost predicate Guarded(s: Site, t: Tid, x: Txn) {
    VersionsMatch(s, x.readVer) && VersionsMatch(s, x.writeVer) && HoldsRows(s.locks, t, x)
  }

  ghost predicate EntryOk(s: Site, t: Tid)
    requires t in s.txns
  {
    && NotAhead(s, s.txns[t].readVer) && NotAhead(s, s.txns[t].writeVer)
    && (s.txns[t].verified ==> Guarded(s, t, s.txns[t]))
  }

  ghost predicate SiteInv(s: Site) {
    Valid(s) && forall t :: t in s.txns ==> EntryOk(s, t)
  }

  /** A handler run for `t` leaves the other transactions' records alone. */
  ghost predicate OthersSame(s: Site, s': Site, t: Tid) {
    forall u :: u != t ==> (u in s.txns <==> u in s'.txns) && (u in s.txns ==> s.txns[u] == s'.txns[u])
  }

  ghost predicate SameTable(s: Site, s': Site) {
    s'.values == s.values && s'.vers == s.vers
  }

  /** Versions only grow, and a value changes only with its version. */
  ghost predicate Forward(s: Site, s': Site) {
    && s'.values.Keys == s.values.Keys && s'.vers.Keys == s.vers.Keys
    && forall c :: c in s.vers ==>
      s.vers[c] <= s'.vers[c] && (c in s.values && s.vers[c] == s'.vers[c] ==> s'.values[c] == s.values[c])
  }

  ghost predicate RecordOk(s: Site, x: Txn) {
    TxnOk(s, x) && NotAhead(s, x.readVer) && NotAhead(s, x.writeVer) && !x.verified
  }

  lemma RecordIs(s: Site, t: Tid)
    requires SiteInv(s) && !TxnAt(s, t).verified
    ensures RecordOk(s, TxnAt(s, t)) && s.values.Keys == s.vers.Keys
  {
    assert t in s.txns ==> TxnOk(s, s.txns[t]) && EntryOk(s, t);
  }

  lemma ReadKeeps(s: Site, t: Tid, c: Cell)
    requires SiteInv(s) && c in s.values && !TxnAt(s, t).verified
    ensures SiteInv(AfterRead(s, t, c)) && OthersSame(s, AfterRead(s, t, c), t)
  {
    hide SiteInv, RecordOk;
    RecordIs(s, t);
    ReadRecord(s, t, c);
    StageKeeps(s, AfterRead(s, t, c), t);
  }

  lemma ReadRecord(s: Site, t: Tid, c: Cell)
    requires RecordOk(s, TxnAt(s, t)) && c in s.values && s.values.Keys == s.vers.Keys
    ensures RecordOk(AfterRead(s, t, c), AfterRead(s, t, c).txns[t])
  {
  }

  lemma WriteKeeps(s: Site, t: Tid, c: Cell, v: Value)
    requires SiteInv(s) && c in s.values && !TxnAt(s, t).verified
    ensures SiteInv(AfterWrite(s, t, c, v)) && OthersSame(s, AfterWrite(s, t, c, v), t)
  {
    hide SiteInv, RecordOk;
    RecordIs(s, t);
    WriteRecord(s, t, c, v);
    StageKeeps(s, AfterWrite(s, t, c, v), t);
  }

  lemma WriteRecord(s: Site, t: Tid, c: Cell, v: Value)
    requires RecordOk(s, TxnAt(s, t)) && c in s.values && s.values.Keys == s.vers.Keys
    ensures RecordOk(AfterWrite(s, t, c, v), AfterWrite(s, t, c, v).txns[t])
  {
  }

  /** Staging by an unprepared transaction. */
  lemma StageKeeps(s: Site, s': Site, t: Tid)
    requires SiteInv(s) && s' == s.(txns := s'.txns) && t in s'.txns && s'.txns == s.txns[t := s'.txns[t]]
    requires !TxnAt(s, t).verified && RecordOk(s', s'.txns[t])
    ensures SiteInv(s')
  {
    forall row | row in s'.locks
      ensures LockOk(s', row)
    {
      assert LockOk(s, row);
      assert t in s.txns ==> TxnOk(s, s.txns[t]);
    }
    forall u | u in s'.txns
      ensures TxnOk(s', s'.txns[u]) && EntryOk(s', u)
    {
      assert u != t ==> TxnOk(s, s.txns[u]) && EntryOk(s, u);
    }
  }

  lemma PrepareKeeps(s: Site, t: Tid)
    requires SiteInv(s) && t in s.txns && !s.txns[t].verified
    ensures SiteInv(AfterPrepare(s, t)) && OthersSame(s, AfterPrepare(s, t), t) && SameTable(s, AfterPrepare(s, t))
    ensures PrepareOk(s, t) ==>
      AfterPrepare(s, t).txns[t] == s.txns[t].(locks := AfterPrepare(s, t).txns[t].locks, verified := true)
  {
    hide EntryOk, TxnOk, LockOk, LockKept;
    if PrepareOk(s, t) {
      var s' := AfterPrepare(s, t);
      forall row | row in s.locks
        ensures LockOk(s', row) && LockKept(s, s', t, row)
      {
        AcquiredRow(s, t, row);
      }
      AcquiredGuarded(s, t);
      forall u | u in s'.txns && u != t
        ensures TxnOk(s', s'.txns[u]) && EntryOk(s', u)
      {
        OtherEntry(s, s', t, u);
      }
    }
  }

  /** What other owners hold on a row is the same before and after. */
  ghost predicate LockKept(s: Site, s': Site, t: Tid, row: nat)
    requires row in s.locks
  {
    && row in s'.locks
    && forall u :: u != t ==>
      && (HasRead(s'.locks[row], u) <==> HasRead(s.locks[row], u))
      && (HasWrite(s'.locks[row], u) <==> HasWrite(s.locks[row], u))
  }

  lemma AcquiredRow(s: Site, t: Tid, row: nat)
    requires SiteInv(s) && t in s.txns && !s.txns[t].verified && PrepareOk(s, t) && row in s.locks
    ensures LockOk(AfterPrepare(s, t), row) && LockKept(s, AfterPrepare(s, t), t, row)
  {
    assert TxnOk(s, s.txns[t]) && LockOk(s, row);
    assert !HasRead(s.locks[row], t);
    var s' := AfterPrepare(s, t);
    forall u | u != t
      ensures HasRead(s'.locks[row], u) <==> HasRead(s.locks[row], u)
      ensures HasWrite(s'.locks[row], u) <==> HasWrite(s.locks[row], u)
    {
      OthersKept(s.locks[row], t, u);
    }
  }

  lemma AcquiredGuarded(s: Site, t: Tid)
    requires SiteInv(s) && t in s.txns && !s.txns[t].verified && PrepareOk(s, t)
    ensures TxnOk(AfterPrepare(s, t), AfterPrepare(s, t).txns[t]) && EntryOk(AfterPrepare(s, t), t)
  {
    hide HoldsRows, Acquired, LockOk;
    var x := s.txns[t];
    NothingHeldYet(s, t);
    RowsKnown(s, t);
    assert EntryOk(s, t) && TxnOk(s, x);
    hide SiteInv;
    AcquiredHolds(s.locks, t, x);
    AcquiredKeys(s.locks, t, Rows(x.readVer), Rows(x.writeVer));
    AcquiredEntry(s, AfterPrepare(s, t), t);
  }

  lemma AcquiredEntry(s: Site, s': Site, t: Tid)
    requires t in s.txns && t in s'.txns && PrepareOk(s, t) && EntryOk(s, t) && TxnOk(s, s.txns[t])
    requires s'.txns[t] == s.txns[t].(locks := s'.txns[t].locks, verified := true) && SameTable(s, s')
    requires s'.txns[t].locks <= s'.locks.Keys && HoldsRows(s'.locks, t, s'.txns[t])
    ensures TxnOk(s', s'.txns[t]) && EntryOk(s', t)
  {
    hide HoldsRows;
  }

  lemma RowsKnown(s: Site, t: Tid)
    requires Valid(s) && t in s.txns
    ensures forall c :: c in s.txns[t].readVer || c in s.txns[t].writeVer ==> c.row in s.locks
    ensures Rows(s.txns[t].readVer) + Rows(s.txns[t].writeVer) <= s.locks.Keys
  {
    assert TxnOk(s, s.txns[t]);
  }

  lemma NothingHeldYet(s: Site, t: Tid)
    requires Valid(s) && t in s.txns && !s.txns[t].verified
    ensures forall row :: row in s.locks ==> !HasRead(s.locks[row], t)
  {
    assert TxnOk(s, s.txns[t]);
    assert forall row :: row in s.locks ==> LockOk(s, row);
  }

  lemma AcquiredKeys(locks: map<nat, Lock>, t: Tid, rs: set<nat>, ws: set<nat>)
    ensures Acquired(locks, t, rs, ws).Keys == locks.Keys
  {
  }

  lemma AcquiredHolds(locks: map<nat, Lock>, t: Tid, x: Txn)
    requires x.updates.Keys == x.writeVer.Keys && forall row :: row in locks ==> !HasRead(locks[row], t)
    requires forall c :: c in x.readVer ==> c.row in locks && CanRead(locks[c.row], t)
    requires forall c :: c in x.writeVer ==> c.row in locks
    ensures var rs, ws := Rows(x.readVer), Rows(x.writeVer);
      HoldsRows(Acquired(locks, t, rs, ws), t, x.(locks := rs + ws, verified := true))
  {
    forall c | c in x.readVer
      ensures c.row in Rows(x.readVer)
    {
    }
    forall c | c in x.updates
      ensures c.row in Rows(x.writeVer)
    {
      assert c in x.writeVer;
    }
  }

  /** The record of another transaction stays in order when the table and its locks are left alone. */
  lemma OtherEntry(s: Site, s': Site, t: Tid, u: Tid)
    requires Valid(s) && u != t && u in s.txns && u in s'.txns && s'.txns[u] == s.txns[u] && EntryOk(s, u)
    requires SameTable(s, s') && s'.locks.Keys == s.locks.Keys
    requires forall row :: row in s.locks ==> LockKept(s, s', t, row)
    ensures TxnOk(s', s'.txns[u]) && EntryOk(s', u)
  {
    assert TxnOk(s, s.txns[u]);
  }

  lemma AbortKeeps(s: Site, t: Tid)
    requires SiteInv(s) && t in s.txns
    ensures SiteInv(AfterAbort(s, t)) && OthersSame(s, AfterAbort(s, t), t) && SameTable(s, AfterAbort(s, t))
  {
    var s' := AfterAbort(s, t);
    assert TxnOk(s, s.txns[t]);
    forall row | row in s.locks
      ensures LockOk(s', row) && LockKept(s, s', t, row)
    {
      assert LockOk(s, row);
      forall u | u != t
        ensures HasRead(s'.locks[row], u) <==> HasRead(s.locks[row], u)
        ensures HasWrite(s'.locks[row], u) <==> HasWrite(s.locks[row], u)
      {
        OthersKept(s.locks[row], t, u);
      }
    }
    forall u | u in s'.txns
      ensures TxnOk(s', s'.txns[u]) && EntryOk(s', u)
    {
      OtherEntry(s, s', t, u);
    }
  }

  /** A prepared transaction's updates touch nothing that another prepared transaction has read or staged. */
  lemma Apart(s: Site, t: Tid, u: Tid, c: Cell)
    requires SiteInv(s) && t != u && t in s.txns && u in s.txns && s.txns[t].verified && s.txns[u].verified
    requires c in s.txns[t].updates
    ensures c !in s.txns[u].readVer && c !in s.txns[u].updates
  {
    assert EntryOk(s, t) && EntryOk(s, u) && TxnOk(s, s.txns[t]);
    assert LockOk(s, c.row);
  }

  lemma ConfirmKeeps(s: Site, t: Tid)
    requires SiteInv(s) && t in s.txns && s.txns[t].verified
    ensures SiteInv(AfterConfirm(s, t)) && OthersSame(s, AfterConfirm(s, t), t) && Forward(s, AfterConfirm(s, t))
  {
    hide EntryOk, LockOk, TxnOk;
    AbortKeeps(s, t);
    var a, s' := AfterAbort(s, t), AfterConfirm(s, t);
    forall row | row in s'.locks
      ensures LockOk(s', row)
    {
      SameLock(a, s', row);
    }
    forall u | u in s'.txns
      ensures TxnOk(s', s'.txns[u]) && EntryOk(s', u)
    {
      forall c | (c in a.txns[u].readVer || c in a.txns[u].writeVer) && a.txns[u].verified
        ensures c !in s.txns[t].updates
      {
        NotStaged(s, t, u, c);
      }
      ConfirmEntry(a, s', s.txns[t].updates.Keys, u);
    }
  }

  lemma SameLock(a: Site, s': Site, row: nat)
    requires row in a.locks && LockOk(a, row) && s'.locks == a.locks && s'.txns == a.txns
    ensures LockOk(s', row)
  {
  }

  lemma NotStaged(s: Site, t: Tid, u: Tid, c: Cell)
    requires SiteInv(s) && t != u && t in s.txns && u in s.txns && s.txns[t].verified && s.txns[u].verified
    requires c in s.txns[u].readVer || c in s.txns[u].writeVer
    ensures c !in s.txns[t].updates
  {
    assert TxnOk(s, s.txns[u]);
    hide SiteInv;
    if c in s.txns[t].updates {
      Apart(s, t, u, c);
    }
  }

  /** A confirmed update ages what unprepared transactions recorded, and nothing that a prepared one did. */
  lemma ConfirmEntry(a: Site, s': Site, cells: set<Cell>, u: Tid)
    requires s' == a.(values := s'.values, vers := Bumped(a.vers, cells)) && s'.values.Keys == a.values.Keys
    requires u in a.txns && EntryOk(a, u) && TxnOk(a, a.txns[u])
    requires a.txns[u].verified ==> forall c :: c in a.txns[u].readVer || c in a.txns[u].writeVer ==> c !in cells
    ensures EntryOk(s', u) && TxnOk(s', s'.txns[u])
  {
    hide HoldsRows;
  }
}
