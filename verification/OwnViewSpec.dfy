/**
 * What a two-phase-locking transaction has staged, what it sees of it before it commits, and a private copy of the
 * database to compare that view with.
 */
module OwnViewSpec {
  import opened Options
  import opened IndexSpec
  import opened KeyOrder
  import opened StagedOrder

  /** The key columns, and a value of each column's kind. */
  datatype TableSchema = TableSchema(keyCols: seq<nat>, kinds: Key)

  /** `home` is the table each row is in; a row missing from it is in none. */
  datatype Db = Db(home: map<nat, nat>, data: map<nat, seq<Value>>)

  datatype Staged = Staged(table: nat, row: nat)

  datatype State = State(
    schemas: map<nat, TableSchema>, db: Db,
    updates: map<nat, seq<(nat, Value)>>, inserts: seq<Staged>, removes: set<(nat, nat)>)

  predicate Sound(ts: TableSchema) {
    forall j :: 0 <= j < |ts.keyCols| ==> ts.keyCols[j] < |ts.kinds|
  }

  predicate RowFits(ts: TableSchema, cols: seq<Value>) {
    SameKinds(cols, ts.kinds)
  }

  function KeyOf(ts: TableSchema, cols: seq<Value>): (k: Key)
    requires Sound(ts) && RowFits(ts, cols)
    ensures SameKinds(k, Picked(ts.kinds, ts.keyCols))
  {
    Picked(cols, ts.keyCols)
  }

  /** Row `r` has the columns of table `t`. */
  predicate Shapely(s: State, t: nat, r: nat) {
    t in s.schemas && Sound(s.schemas[t]) && r in s.db.data && RowFits(s.schemas[t], s.db.data[r])
  }

  function KeyIn(s: State, t: nat, r: nat): Key
    requires Shapely(s, t, r)
  {
    KeyOf(s.schemas[t], s.db.data[r])
  }

  /** The keys that rows with the columns of table `t` have now. */
  function KeysIn(s: State, t: nat): map<nat, Key> {
    map r | r in s.db.data && Shapely(s, t, r) :: KeyIn(s, t, r)
  }

  ghost function Protos(s: State): map<nat, Key> {
    map t | t in s.schemas && Sound(s.schemas[t]) :: Picked(s.schemas[t].kinds, s.schemas[t].keyCols)
  }

  ghost predicate StagedShapely(s: State) {
    forall i :: 0 <= i < |s.inserts| ==>
      Shapely(s, s.inserts[i].table, s.inserts[i].row) && s.inserts[i].row !in s.db.home
  }

  function PairAt(s: State, i: nat): Pair
    requires StagedShapely(s) && i < |s.inserts|
  {
    Pair(s.inserts[i].table, RowKey(KeyIn(s, s.inserts[i].table, s.inserts[i].row)))
  }

  function Pairs(s: State): (ps: seq<Pair>)
    requires StagedShapely(s)
    ensures |ps| == |s.inserts|
    ensures forall i :: 0 <= i < |ps| ==> ps[i] == PairAt(s, i)
  {
    seq(|s.inserts|, i requires 0 <= i < |s.inserts| => PairAt(s, i))
  }

  ghost predicate StagedOnce(inserts: seq<Staged>) {
    forall i, j :: 0 <= i < j < |inserts| ==> inserts[i].row != inserts[j].row
  }

  // ---- staged column writes of one row

  function Find(us: seq<(nat, Value)>, c: nat): Option<Value> {
    if us == [] then None else if us[0].0 == c then Some(us[0].1) else Find(us[1..], c)
  }

  /** A write replaces the staged value of the column or is added last. */
  function Put(us: seq<(nat, Value)>, c: nat, v: Value): (r: seq<(nat, Value)>)
    ensures |us| <= |r| <= |us| + 1
  {
    if us == [] then [(c, v)]
    else if us[0].0 == c then [(c, v)] + us[1..]
    else [us[0]] + Put(us[1..], c, v)
  }

  lemma {:induction false} FindPut(us: seq<(nat, Value)>, c: nat, v: Value, d: nat)
    ensures Find(Put(us, c, v), d) == if d == c then Some(v) else Find(us, d)
  {
    if us != [] && us[0].0 != c {
      assert ([us[0]] + Put(us[1..], c, v))[1..] == Put(us[1..], c, v);
      FindPut(us[1..], c, v, d);
    }
  }

  ghost predicate ValueFits(kinds: Key, c: nat, v: Value) {
    c < |kinds| && SameKinds([v], [kinds[c]])
  }

  ghost predicate AllValuesFit(kinds: Key, us: seq<(nat, Value)>) {
    forall i :: 0 <= i < |us| ==> ValueFits(kinds, us[i].0, us[i].1)
  }

  ghost predicate ColumnsOnce(us: seq<(nat, Value)>) {
    forall i, j :: 0 <= i < j < |us| ==> us[i].0 != us[j].0
  }

  lemma {:induction false} PutKeeps(kinds: Key, us: seq<(nat, Value)>, c: nat, v: Value)
    requires AllValuesFit(kinds, us) && ColumnsOnce(us) && ValueFits(kinds, c, v)
    ensures AllValuesFit(kinds, Put(us, c, v)) && ColumnsOnce(Put(us, c, v))
    ensures forall i :: 0 <= i < |Put(us, c, v)| ==>
      Put(us, c, v)[i].0 == c || exists j :: 0 <= j < |us| && us[j].0 == Put(us, c, v)[i].0
  {
    hide ValueFits;
    if us != [] {
      PutKeeps(kinds, us[1..], c, v);
    }
  }

  // ---- what every operation keeps

  ghost predicate Homed(s: State) {
    forall r :: r in s.db.home ==> Shapely(s, s.db.home[r], r)
  }

  ghost predicate Removed(s: State, r: nat) {
    r in s.db.home && (s.db.home[r], r) in s.removes
  }

  ghost predicate UpdatesOk(s: State)
    requires Homed(s)
  {
    forall r :: r in s.updates ==>
      && r in s.db.home && !Removed(s, r)
      && AllValuesFit(s.schemas[s.db.home[r]].kinds, s.updates[r]) && ColumnsOnce(s.updates[r])
  }

  ghost predicate RemovesOk(s: State) {
    forall p :: p in s.removes ==> p.1 in s.db.home && s.db.home[p.1] == p.0
  }

  ghost predicate Inv(s: State) {
    && Homed(s)
    && StagedShapely(s) && StagedOnce(s.inserts)
    && Ordered(Pairs(s))
    && UpdatesOk(s)
    && RemovesOk(s)
  }

  // ---- the transaction's view

  /** The value `read_column` returns. */
  ghost function Seen(s: State, r: nat, c: nat): Value
    requires r in s.db.data && c < |s.db.data[r]|
  {
    if r in s.db.home && r in s.updates && Find(s.updates[r], c).Some? then Find(s.updates[r], c).value
    else s.db.data[r][c]
  }

  ghost function SeenRow(s: State, r: nat): (cols: seq<Value>)
    requires r in s.db.data
    ensures |cols| == |s.db.data[r]|
  {
    seq(|s.db.data[r]|, c requires 0 <= c < |s.db.data[r]| => Seen(s, r, c))
  }

  /** Row `r` is one of table `t`'s, as the transaction sees it. */
  ghost predicate Member(s: State, t: nat, r: nat) {
    (r in s.db.home && s.db.home[r] == t && (t, r) !in s.removes) || Staged(t, r) in s.inserts
  }

  // ---- operations on staged state and on a private copy

  datatype Op = Write(row: nat, col: nat, value: Value) | Insert(table: nat, row: nat) | Remove(table: nat, row: nat)

  /** A row's column is written where the row is. */
  ghost function InPlace(s: State, r: nat, c: nat, v: Value): State
    requires r in s.db.data && c < |s.db.data[r]|
  {
    s.(db := s.db.(data := s.db.data[r := s.db.data[r][c := v]]))
  }

  ghost predicate OrderKept(s: State, r: nat, c: nat, v: Value)
    requires r in s.db.data && c < |s.db.data[r]|
  {
    StagedShapely(InPlace(s, r, c, v)) && Ordered(Pairs(InPlace(s, r, c, v)))
  }

  /** What the source demands of a write: a live row and a value of the column's kind. */
  ghost predicate Writable(s: State, r: nat, c: nat, v: Value)
    requires Inv(s)
  {
    && r in s.db.data && c < |s.db.data[r]| && !Removed(s, r)
    && (r in s.db.home ==> ValueFits(s.schemas[s.db.home[r]].kinds, c, v))
    && (forall i :: 0 <= i < |s.inserts| && s.inserts[i].row == r ==>
      ValueFits(s.schemas[s.inserts[i].table].kinds, c, v))
  }

  /** The write is staged, or leaves the staged rows in order: they are filed by key and are not filed again. */
  ghost predicate KeepsOrder(s: State, r: nat, c: nat, v: Value)
    requires r in s.db.data && c < |s.db.data[r]|
  {
    r in s.db.home || OrderKept(s, r, c, v)
  }

  /**
   * What the operations of a run need: a write that keeps the order, a row that is in no table and not staged for an
   * insert, a member of the table for a remove.
   */
  ghost predicate Legal(s: State, op: Op)
    requires Inv(s)
  {
    match op
    case Write(r, c, v) =>
      Writable(s, r, c, v) && KeepsOrder(s, r, c, v)
    case Insert(t, r) =>
      && Shapely(s, t, r) && r !in s.db.home && forall i :: 0 <= i < |s.inserts| ==> s.inserts[i].row != r
    case Remove(t, r) =>
      Member(s, t, r)
  }

  /** Where the staged insert of `r` in table `t` is, if it is there. */
  function StagedAt(inserts: seq<Staged>, t: nat, r: nat): (k: nat)
    ensures k <= |inserts| && (k < |inserts| ==> inserts[k] == Staged(t, r))
    ensures k == |inserts| ==> Staged(t, r) !in inserts
  {
    if inserts == [] || inserts[0] == Staged(t, r) then 0 else 1 + StagedAt(inserts[1..], t, r)
  }

  ghost function Wrote(s: State, r: nat, c: nat, v: Value): State
    requires Inv(s) && Writable(s, r, c, v)
  {
    if r !in s.db.home then InPlace(s, r, c, v)
    else s.(updates := s.updates[r := Put(if r in s.updates then s.updates[r] else [], c, v)])
  }

  ghost function Inserted(s: State, t: nat, r: nat): State
    requires Inv(s) && Legal(s, Insert(t, r))
  {
    var k := UpperBound(Pairs(s), Pair(t, RowKey(KeyIn(s, t, r))));
    s.(inserts := s.inserts[..k] + [Staged(t, r)] + s.inserts[k..], removes := s.removes - {(t, r)})
  }

  ghost function RemovedRow(s: State, t: nat, r: nat): State {
    var k := StagedAt(s.inserts, t, r);
    var u := s.(updates := s.updates - {r});
    if k == |s.inserts| then u.(removes := s.removes + {(t, r)})
    else u.(inserts := s.inserts[..k] + s.inserts[k + 1..])
  }

  ghost function After(s: State, op: Op): State
    requires Inv(s) && Legal(s, op)
  {
    match op
    case Write(r, c, v) => Wrote(s, r, c, v)
    case Insert(t, r) => Inserted(s, t, r)
    case Remove(t, r) => RemovedRow(s, t, r)
  }

  /** The same operation carried out at once. */
  ghost function Direct(d: Db, op: Op): Db {
    match op
    case Write(r, c, v) =>
      if r in d.data && c < |d.data[r]| then d.(data := d.data[r := d.data[r][c := v]]) else d
    case Insert(t, r) => d.(home := d.home[r := t])
    case Remove(t, r) => d.(home := d.home - {r})
  }

  ghost predicate InTable(home: map<nat, nat>, t: nat, r: nat) {
    r in home && home[r] == t
  }

  /** The transaction sees the tables and rows of `d`. */
  ghost predicate Agrees(s: State, d: Db) {
    && (forall t, r :: Member(s, t, r) <==> InTable(d.home, t, r))
    && d.data.Keys == s.db.data.Keys
    && (forall r :: r in d.data && !Removed(s, r) ==> d.data[r] == SeenRow(s, r))
  }
}
