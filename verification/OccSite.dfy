/**
 * One site of the optimistic protocol, under the lazy policy: rows with a value and a version per column and a lock per
 * row, and the transactions that are running on it. Every handler is atomic.
 */
module OccSite {
  import opened Locking

  type Value = int

  datatype Cell = Cell(row: nat, col: nat)

  /** What a transaction has staged and recorded at this site. */
  datatype Txn = Txn(updates: map<Cell, Value>, readVer: map<Cell, nat>, writeVer: map<Cell, nat>, locks: set<nat>,
      verified: bool)

  datatype Site = Site(values: map<Cell, Value>, vers: map<Cell, nat>, locks: map<nat, Lock>, txns: map<Tid, Txn>)

  const FRESH := Txn(map[], map[], map[], {}, false)

  function TxnAt(s: Site, t: Tid): Txn {
    if t in s.txns then s.txns[t] else FRESH
  }

  predicate KnownCells(s: Site, m: map<Cell, nat>) {
    forall c :: c in m ==> c in s.values
  }

  /** Locks are held by prepared transactions only, each of which knows the rows it holds. */
  ghost predicate LockOk(s: Site, row: nat)
    requires row in s.locks
  {
    Exclusive(s.locks[row]) && forall t :: HasRead(s.locks[row], t) <==> t in s.txns && row in s.txns[t].locks
  }

  ghost predicate TxnOk(s: Site, x: Txn) {
    && x.updates.Keys == x.writeVer.Keys
    && KnownCells(s, x.readVer) && KnownCells(s, x.writeVer)
    && x.locks <= s.locks.Keys
    && (!x.verified ==> x.locks == {})
  }

  ghost predicate Valid(s: Site) {
    && s.values.Keys == s.vers.Keys
    && (forall c :: c in s.values ==> c.row in s.locks)
    && (forall row :: row in s.locks ==> LockOk(s, row))
    && (forall t :: t in s.txns ==> TxnOk(s, s.txns[t]))
  }

  // ---- What the handlers compute

  /** A read sees the transaction's own staged update, or the table; then the first version seen is remembered. */
  function ReadValue(s: Site, t: Tid, c: Cell): Value
    requires c in s.values
  {
    var x := TxnAt(s, t);
    if c in x.updates then x.updates[c] else s.values[c]
  }

  function AfterRead(s: Site, t: Tid, c: Cell): Site
    requires c in s.vers
  {
    var x := TxnAt(s, t);
    var x' := if c in x.updates || c in x.readVer then x else x.(readVer := x.readVer[c := s.vers[c]]);
    s.(txns := s.txns[t := x'])
  }

  function AfterWrite(s: Site, t: Tid, c: Cell, v: Value): Site
    requires c in s.vers
  {
    var x := TxnAt(s, t);
    var x' := if c in x.updates then x else x.(writeVer := x.writeVer[c := s.vers[c]]);
    s.(txns := s.txns[t := x'.(updates := x'.updates[c := v])])
  }

  predicate VersionsMatch(s: Site, m: map<Cell, nat>) {
    forall c :: c in m ==> c in s.vers && s.vers[c] == m[c]
  }

  predicate Readable(s: Site, t: Tid, m: map<Cell, nat>) {
    forall c :: c in m ==> c.row in s.locks && CanRead(s.locks[c.row], t)
  }

  predicate Writable(s: Site, t: Tid, m: map<Cell, nat>) {
    forall c :: c in m ==> c.row in s.locks && CanWrite(s.locks[c.row], t)
  }

  /** The prepare test: nothing read or written has changed, and no other transaction stands in the way. */
  predicate PrepareOk(s: Site, t: Tid)
    requires t in s.txns
  {
    var x := s.txns[t];
    VersionsMatch(s, x.readVer) && VersionsMatch(s, x.writeVer) && Readable(s, t, x.readVer)
      && Writable(s, t, x.writeVer)
  }

  function Rows(m: map<Cell, nat>): set<nat> {
    set c | c in m :: c.row
  }

  /** The locks after `t` takes read locks on `rs` and then write locks on `ws`. */
  function Acquired(locks: map<nat, Lock>, t: Tid, rs: set<nat>, ws: set<nat>): map<nat, Lock> {
    map row | row in locks ::
      if row in ws then WriteLocked(locks[row], t)
      else if row in rs then ReadLocked(locks[row], t)
      else locks[row]
  }

  function AfterPrepare(s: Site, t: Tid): Site
    requires t in s.txns
  {
    var x := s.txns[t];
    if PrepareOk(s, t) then
      var rs, ws := Rows(x.readVer), Rows(x.writeVer);
      s.(locks := Acquired(s.locks, t, rs, ws), txns := s.txns[t := x.(locks := rs + ws, verified := true)])
    else s
  }

  function Released(locks: map<nat, Lock>, t: Tid, rows: set<nat>): map<nat, Lock> {
    map row | row in locks :: if row in rows then Unlocked(locks[row], t) else locks[row]
  }

  function Bumped(vers: map<Cell, nat>, cells: set<Cell>): map<Cell, nat> {
    map c | c in vers :: if c in cells then vers[c] + 1 else vers[c]
  }

  function Updated(values: map<Cell, Value>, updates: map<Cell, Value>): map<Cell, Value> {
    map c | c in values :: if c in updates then updates[c] else values[c]
  }

  function AfterAbort(s: Site, t: Tid): Site
    requires t in s.txns
  {
    s.(locks := Released(s.locks, t, s.txns[t].locks), txns := s.txns - {t})
  }

  function AfterConfirm(s: Site, t: Tid): Site
    requires t in s.txns
  {
    var x := s.txns[t];
    AfterAbort(s, t).(values := Updated(s.values, x.updates), vers := Bumped(s.vers, x.updates.Keys))
  }
}
