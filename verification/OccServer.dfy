/** The handlers of a site as they work: loops over recorded versions, locks taken one row at a time. */
module OccServer {
  import opened Options
  import opened Locking
  import opened OccSite

  /** Locks on which `t` holds nothing. */
  ghost predicate Untouched(locks: map<nat, Lock>, t: Tid) {
    forall row :: row in locks ==> Exclusive(locks[row]) && !HasRead(locks[row], t)
  }

  ghost predicate MayRead(locks: map<nat, Lock>, t: Tid, rows: set<nat>) {
    forall row :: row in rows ==> row in locks && CanRead(locks[row], t)
  }

  ghost predicate MayWrite(locks: map<nat, Lock>, t: Tid, rows: set<nat>) {
    forall row :: row in rows ==> row in locks && CanWrite(locks[row], t)
  }

  /** Giving back what was taken restores the locks. */
  lemma Undone(locks: map<nat, Lock>, t: Tid, rs: set<nat>, ws: set<nat>)
    requires Untouched(locks, t) && MayRead(locks, t, rs) && MayWrite(locks, t, ws)
    ensures Released(Acquired(locks, t, rs, ws), t, rs + ws) == locks
  {
    var l := Released(Acquired(locks, t, rs, ws), t, rs + ws);
    forall row | row in locks
      ensures l[row] == locks[row]
    {
      assert locks[row].r - {t} == locks[row].r && locks[row].r + {t} - {t} == locks[row].r;
    }
  }

  lemma AcquireNothing(locks: map<nat, Lock>, t: Tid)
    ensures Acquired(locks, t, {}, {}) == locks
  {
  }

  lemma AcquireRead(locks: map<nat, Lock>, t: Tid, rs: set<nat>, row: nat)
    requires row in locks
    ensures CanRead(Acquired(locks, t, rs, {})[row], t) <==> CanRead(locks[row], t)
    ensures Acquired(locks, t, rs, {})[row := ReadLocked(Acquired(locks, t, rs, {})[row], t)] ==
      Acquired(locks, t, rs + {row}, {})
  {
    assert locks[row].r + {t} + {t} == locks[row].r + {t};
  }

  lemma AcquireWrite(locks: map<nat, Lock>, t: Tid, rs: set<nat>, ws: set<nat>, row: nat)
    requires row in locks && Exclusive(locks[row]) && MayRead(locks, t, rs) && MayWrite(locks, t, ws)
    ensures CanWrite(Acquired(locks, t, rs, ws)[row], t) <==> CanWrite(locks[row], t)
    ensures Acquired(locks, t, rs, ws)[row := WriteLocked(Acquired(locks, t, rs, ws)[row], t)] ==
      Acquired(locks, t, rs, ws + {row})
  {
    assert locks[row].r <= {t} <==> locks[row].r + {t} <= {t};
  }

  class SiteServer {
    var values: map<Cell, Value>
    var vers: map<Cell, nat>
    var locks: map<nat, Lock>
    var txns: map<Tid, Txn>

    ghost function State(): Site
      reads this
    {
      Site(values, vers, locks, txns)
    }

    ghost predicate Valid()
      reads this
    {
      OccSite.Valid(State())
    }

    constructor (values: map<Cell, Value>)
      ensures Valid() && this.values == values && txns == map[] && forall c :: c in values ==> vers[c] == 0
    {
      this.values := values;
      vers := map c | c in values :: 0;
      var rows := set c | c in values :: c.row;
      locks := map row | row in rows :: Lock(None, {});
      txns := map[];
    }

    method ReadColumn(t: Tid, c: Cell) returns (v: Value)
      requires Valid() && c in values
      modifies this`txns
      ensures v == ReadValue(old(State()), t, c) && State() == AfterRead(old(State()), t, c)
    {
      if t !in txns {
        txns := txns[t := FRESH];
      }
      var x := txns[t];
      if c in x.updates {
        return x.updates[c];
      }
      if c !in x.readVer {
        txns := txns[t := x.(readVer := x.readVer[c := vers[c]])];
      }
      v := values[c];
    }

    method WriteColumn(t: Tid, c: Cell, v: Value)
      requires Valid() && c in values
      modifies this`txns
      ensures State() == AfterWrite(old(State()), t, c, v)
    {
      if t !in txns {
        txns := txns[t := FRESH];
      }
      var x := txns[t];
      if c in x.updates {
        txns := txns[t := x.(updates := x.updates[c := v])];
        return;
      }
      if c !in x.writeVer {
        x := x.(writeVer := x.writeVer[c := vers[c]]);
      }
      txns := txns[t := x.(updates := x.updates[c := v])];
    }

    method VersionCheck(m: map<Cell, nat>) returns (ok: bool)
      requires Valid() && KnownCells(State(), m)
      ensures ok == VersionsMatch(State(), m)
    {
      var todo := m.Keys;
      while todo != {}
        invariant todo <= m.Keys && forall c :: c in m && c !in todo ==> vers[c] == m[c]
      {
        var c :| c in todo;
        if vers[c] != m[c] {
          return false;
        }
        todo := todo - {c};
      }
      ok := true;
    }

    method UnlockRows(t: Tid, rows: set<nat>)
      requires rows <= locks.Keys
      modifies this`locks
      ensures locks == Released(old(locks), t, rows)
    {
      var todo := rows;
      while todo != {}
        invariant todo <= rows && locks == Released(old(locks), t, rows - todo)
      {
        var row :| row in todo;
        locks := locks[row := Unlocked(locks[row], t)];
        assert rows - (todo - {row}) == rows - todo + {row};
        todo := todo - {row};
      }
      assert rows - todo == rows;
    }

    /** The loop over the recorded reads; on a refusal everything taken is given back. */
    method LockReads(t: Tid, m: map<Cell, nat>) returns (ok: bool, held: set<nat>)
      requires Untouched(locks, t) && forall c :: c in m ==> c.row in locks
      modifies this`locks
      ensures ok == Readable(old(State()), t, m)
      ensures ok ==> held == Rows(m) && locks == Acquired(old(locks), t, Rows(m), {})
      ensures !ok ==> locks == old(locks)
    {
      held := {};
      var todo := m.Keys;
      AcquireNothing(locks, t);
      while todo != {}
        invariant todo <= m.Keys && held == RowsOf(m, todo)
        invariant MayRead(old(locks), t, held) && locks == Acquired(old(locks), t, held, {})
      {
        var c :| c in todo;
        AcquireRead(old(locks), t, held, c.row);
        if !CanRead(locks[c.row], t) {
          UnlockRows(t, held);
          Undone(old(locks), t, held, {});
          assert held + {} == held;
          return false, {};
        }
        locks := locks[c.row := ReadLocked(locks[c.row], t)];
        held := held + {c.row};
        todo := todo - {c};
      }
      ok := true;
    }

    /** The loop over the recorded writes, after `rs` was locked for reading. */
    method LockWrites(t: Tid, rs: set<nat>, m: map<Cell, nat>, ghost before: map<nat, Lock>)
        returns (ok: bool, held: set<nat>)
      requires Untouched(before, t) && MayRead(before, t, rs) && locks == Acquired(before, t, rs, {})
      requires forall c :: c in m ==> c.row in locks
      modifies this`locks
      ensures ok == forall c :: c in m ==> CanWrite(before[c.row], t)
      ensures ok ==> held == rs + Rows(m) && locks == Acquired(before, t, rs, Rows(m))
      ensures !ok ==> locks == before
    {
      ghost var ws: set<nat> := {};
      held := rs;
      var todo := m.Keys;
      while todo != {}
        invariant todo <= m.Keys && ws == RowsOf(m, todo) && held == rs + ws
        invariant MayWrite(before, t, ws) && locks == Acquired(before, t, rs, ws)
      {
        var c :| c in todo;
        AcquireWrite(before, t, rs, ws, c.row);
        if !CanWrite(locks[c.row], t) {
          UnlockRows(t, held);
          Undone(before, t, rs, ws);
          return false, {};
        }
        locks := locks[c.row := WriteLocked(locks[c.row], t)];
        held, ws := held + {c.row}, ws + {c.row};
        todo := todo - {c};
      }
      ok := true;
    }

    /**
     * `commit_prepare`: true exactly when the versions still match and every lock is free to take; else nothing
     * changes.
     */
    method CommitPrepare(t: Tid) returns (ok: bool)
      requires Valid() && t in txns && !txns[t].verified
      modifies this
      ensures ok == PrepareOk(old(State()), t) && State() == AfterPrepare(old(State()), t)
    {
      var x := txns[t];
      assert TxnOk(State(), x);
      NothingHeld(State(), t);
      ok := VersionCheck(x.readVer);
      if !ok {
        return;
      }
      ok := VersionCheck(x.writeVer);
      if !ok {
        return;
      }
      var held;
      ok, held := LockReads(t, x.readVer);
      if !ok {
        return;
      }
      ok, held := LockWrites(t, held, x.writeVer, old(locks));
      if !ok {
        return;
      }
      txns := txns[t := x.(locks := held, verified := true)];
    }

    method ReleaseResource(t: Tid)
      requires t in txns && txns[t].locks <= locks.Keys
      modifies this`locks, this`txns
      ensures State() == AfterAbort(old(State()), t)
    {
      UnlockRows(t, txns[t].locks);
      txns := txns - {t};
    }

    method Abort(t: Tid)
      requires Valid() && t in txns
      modifies this
      ensures State() == AfterAbort(old(State()), t)
    {
      assert TxnOk(State(), txns[t]);
      ReleaseResource(t);
    }

    /** The loop over the staged updates: the value is written and the version of its column goes up by one. */
    method ApplyUpdates(updates: map<Cell, Value>)
      requires values.Keys == vers.Keys && updates.Keys <= values.Keys
      modifies this`values, this`vers
      ensures values == Updated(old(values), updates) && vers == Bumped(old(vers), updates.Keys)
    {
      var todo := updates.Keys;
      while todo != {}
        invariant todo <= updates.Keys && values.Keys == vers.Keys == old(values.Keys)
        invariant forall c :: c in values ==>
          values[c] == if c in updates && c !in todo then updates[c] else old(values)[c]
        invariant forall c :: c in vers ==>
          vers[c] == if c in updates && c !in todo then old(vers)[c] + 1 else old(vers)[c]
      {
        var c :| c in todo;
        values := values[c := updates[c]];
        vers := vers[c := vers[c] + 1];
        todo := todo - {c};
      }
    }

    /** `commit_confirm`: only for a transaction that was prepared here. */
    method CommitConfirm(t: Tid)
      requires Valid() && t in txns && txns[t].verified
      modifies this
      ensures State() == AfterConfirm(old(State()), t)
    {
      assert TxnOk(State(), txns[t]);
      ApplyUpdates(txns[t].updates);
      ReleaseResource(t);
    }
  }

  lemma NothingHeld(s: Site, t: Tid)
    requires OccSite.Valid(s) && t in s.txns && !s.txns[t].verified
    ensures Untouched(s.locks, t)
  {
    assert TxnOk(s, s.txns[t]);
    assert forall row :: row in s.locks ==> LockOk(s, row);
  }

  ghost function RowsOf(m: map<Cell, nat>, todo: set<Cell>): set<nat> {
    set c | c in m && c !in todo :: c.row
  }
}
