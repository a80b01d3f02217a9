/** A transaction's view of its own staged changes is that of a private copy of the database, and commit installs it. */
module OwnViewProof {
  import opened IndexSpec
  import opened KeyOrder
  import opened StagedOrder
  import opened OwnViewSpec

  lemma SetFits(ts: TableSchema, cols: seq<Value>, c: nat, v: Value)
    requires Sound(ts) && RowFits(ts, cols) && ValueFits(ts.kinds, c, v)
    ensures c < |cols| && RowFits(ts, cols[c := v])
    ensures c !in ts.keyCols ==> KeyOf(ts, cols[c := v]) == KeyOf(ts, cols)
  {
    assert [v][0] == v && [ts.kinds[c]][0] == ts.kinds[c];
  }

  // ---- writes

  /** A value of the right kind, written to a row outside every table. */
  ghost predicate FreeFits(s: State, r: nat, c: nat, v: Value)
    requires Inv(s)
  {
    && r in s.db.data && c < |s.db.data[r]| && r !in s.db.home
    && forall i :: 0 <= i < |s.inserts| && s.inserts[i].row == r ==>
      ValueFits(s.schemas[s.inserts[i].table].kinds, c, v)
  }

  /** The staged rows stay in order if and only if the row's new key fits between its neighbours. */
  lemma NewKeyFits(s: State, r: nat, c: nat, v: Value, k: nat)
    requires Inv(s) && FreeFits(s, r, c, v) && k < |s.inserts| && s.inserts[k].row == r
    ensures var t := s.inserts[k].table; var cols := s.db.data[r][c := v];
      && t in s.schemas && Sound(s.schemas[t]) && RowFits(s.schemas[t], cols)
      && (OrderKept(s, r, c, v) <==> Between(Pairs(s), k, Pair(t, RowKey(KeyOf(s.schemas[t], cols)))))
  {
    hide RowFits, Sound, SameKinds, ValueFits, KeyOf, Ordered, UpdatesOk;
    hide Homed, RemovesOk, Between, LessPair, Fits, AllFit;
    var t, s' := s.inserts[k].table, InPlace(s, r, c, v);
    assert Shapely(s, t, r);
    SetFits(s.schemas[t], s.db.data[r], c, v);
    assert Shapely(s', t, r);
    forall i | 0 <= i < |s.inserts| && i != k
      ensures s.inserts[i].row != r && Shapely(s', s.inserts[i].table, s.inserts[i].row)
    {
      assert Shapely(s, s.inserts[i].table, s.inserts[i].row);
      assert StagedOnce(s.inserts);
    }
    var n := Pair(t, RowKey(KeyIn(s', t, r)));
    assert Pairs(s') == Pairs(s)[k := n];
    AllPairsFit(s);
    KeyFits(s', t, r);
    assert Protos(s') == Protos(s);
    ReplacedInOrder(Protos(s), Pairs(s), k, n);
  }

  /** Such a write keeps the staging invariants if and only if the staged rows stay in order. */
  lemma FreeWriteOrder(s: State, r: nat, c: nat, v: Value)
    requires Inv(s) && FreeFits(s, r, c, v)
    ensures Inv(InPlace(s, r, c, v)) <==> OrderKept(s, r, c, v)
  {
    hide RowFits, Sound, SameKinds, ValueFits, KeyOf, Ordered;
    var s' := InPlace(s, r, c, v);
    forall q | q in s.db.home
      ensures Shapely(s', s.db.home[q], q)
    {
      assert Shapely(s, s.db.home[q], q);
    }
    assert forall q :: Removed(s', q) == Removed(s, q);
  }

  /** It does when the column is no key column of the row's table. */
  lemma QuietOrder(s: State, r: nat, c: nat, v: Value)
    requires Inv(s) && FreeFits(s, r, c, v)
    requires forall i :: 0 <= i < |s.inserts| && s.inserts[i].row == r ==> c !in s.schemas[s.inserts[i].table].keyCols
    ensures OrderKept(s, r, c, v)
  {
    hide RowFits, Sound, SameKinds, ValueFits, KeyOf, Ordered;
    var s' := InPlace(s, r, c, v);
    forall i | 0 <= i < |s.inserts|
      ensures Shapely(s', s.inserts[i].table, s.inserts[i].row) && s.inserts[i].row !in s'.db.home
      ensures KeyIn(s', s.inserts[i].table, s.inserts[i].row) == KeyIn(s, s.inserts[i].table, s.inserts[i].row)
    {
      assert Shapely(s, s.inserts[i].table, s.inserts[i].row);
      if s.inserts[i].row == r {
        SetFits(s.schemas[s.inserts[i].table], s.db.data[r], c, v);
      }
    }
    assert Pairs(s') == Pairs(s);
  }

  /** Rows 5 and 6 are staged with keys `a` and `b`. */
  function TwoStaged(a: int, b: int): State {
    State(map[0 := TableSchema([0], [Num(0)])], Db(map[], map[5 := [Num(a)], 6 := [Num(b)]]),
          map[], [Staged(0, 5), Staged(0, 6)], {})
  }

  lemma TwoStagedOrder(a: int, b: int)
    ensures StagedShapely(TwoStaged(a, b))
    ensures Ordered(Pairs(TwoStaged(a, b))) <==> a <= b
  {
    var s := TwoStaged(a, b);
    assert KeyIn(s, 0, 5) == [Num(a)] && KeyIn(s, 0, 6) == [Num(b)];
    var ps := Pairs(s);
    assert ps[0] == PairAt(s, 0) && ps[1] == PairAt(s, 1);
    assert SameKinds([Num(b)], [Num(a)]);
    assert CmpValue([Num(b)][0], [Num(a)][0]) == if b < a then -1 else if b > a then 1 else 0;
    assert [Num(b)][1..] == [] && [Num(a)][1..] == [];
    assert Cmp([Num(b)], [Num(a)]) < 0 <==> b < a;
    assert LessPair(ps[1], ps[0]) <==> b < a;
  }

  /** With keys 1 and 2, a write of 3 to the first key puts them out of order. */
  lemma KeyWriteDisorders()
    ensures exists s: State :: Inv(s) && FreeFits(s, 5, 0, Num(3)) && !OrderKept(s, 5, 0, Num(3))
  {
    hide Ordered, Pairs, KeyOf;
    var s := TwoStaged(1, 2);
    TwoStagedOrder(1, 2);
    TwoStagedOrder(3, 2);
    assert [Num(1)][0 := Num(3)] == [Num(3)];
    assert InPlace(s, 5, 0, Num(3)) == TwoStaged(3, 2);
    assert Inv(s) && FreeFits(s, 5, 0, Num(3));
  }

  lemma HomeWriteInv(s: State, r: nat, c: nat, v: Value)
    requires Inv(s) && Writable(s, r, c, v) && r in s.db.home
    ensures Inv(Wrote(s, r, c, v))
  {
    hide RowFits, Sound, SameKinds, ValueFits, KeyOf, Ordered, AllValuesFit, ColumnsOnce, StagedOnce;
    var s' := Wrote(s, r, c, v);
    assert Shapely(s, s.db.home[r], r);
    NoUpdatesOk(s.schemas[s.db.home[r]].kinds);
    PutKeeps(s.schemas[s.db.home[r]].kinds, if r in s.updates then s.updates[r] else [], c, v);
    SameRows(s, s');
  }

  lemma NoUpdatesOk(kinds: Key)
    ensures AllValuesFit(kinds, []) && ColumnsOnce([])
  {
  }

  /** Staged updates and removes play no part in which rows have the right columns. */
  lemma SameRows(s: State, s': State)
    requires Homed(s) && StagedShapely(s)
    requires s'.schemas == s.schemas && s'.db == s.db && s'.inserts == s.inserts
    ensures Homed(s') && StagedShapely(s') && Pairs(s') == Pairs(s)
  {
    hide RowFits, Sound, KeyOf;
    forall q | q in s.db.home
      ensures Shapely(s', s.db.home[q], q)
    {
      assert Shapely(s, s.db.home[q], q);
    }
    forall i | 0 <= i < |s.inserts|
      ensures Shapely(s', s.inserts[i].table, s.inserts[i].row)
    {
      assert Shapely(s, s.inserts[i].table, s.inserts[i].row);
    }
  }

  /** A write keeps the staging invariants if and only if it is staged or leaves the staged rows in order. */
  lemma WriteExact(s: State, r: nat, c: nat, v: Value)
    requires Inv(s) && Writable(s, r, c, v)
    ensures Inv(Wrote(s, r, c, v)) <==> KeepsOrder(s, r, c, v)
  {
    hide Inv, OrderKept, ValueFits;
    if r in s.db.home {
      HomeWriteInv(s, r, c, v);
    } else {
      FreeWriteOrder(s, r, c, v);
    }
  }

  /** A write shows in the written column of the written row and nowhere else. */
  lemma WriteSeen(s: State, r: nat, c: nat, v: Value, q: nat)
    requires Inv(s) && Writable(s, r, c, v) && q in s.db.data
    ensures q in Wrote(s, r, c, v).db.data
    ensures SeenRow(Wrote(s, r, c, v), q) == if q == r then SeenRow(s, r)[c := v] else SeenRow(s, q)
  {
    hide Inv;
    var s' := Wrote(s, r, c, v);
    forall d | 0 <= d < |s.db.data[q]|
      ensures Seen(s', q, d) == if q == r && d == c then v else Seen(s, q, d)
    {
      if q == r && r in s.db.home {
        FindPut(if r in s.updates then s.updates[r] else [], c, v, d);
      }
    }
  }

  lemma WriteAgrees(s: State, d: Db, r: nat, c: nat, v: Value)
    requires Inv(s) && Writable(s, r, c, v) && Agrees(s, d)
    ensures Agrees(Wrote(s, r, c, v), Direct(d, Write(r, c, v)))
  {
    hide Inv, SeenRow;
    var s' := Wrote(s, r, c, v);
    assert forall t, q :: Member(s', t, q) == Member(s, t, q);
    forall q | q in d.data && !Removed(s', q)
      ensures SeenRow(s', q) == if q == r then SeenRow(s, q)[c := v] else SeenRow(s, q)
    {
      WriteSeen(s, r, c, v, q);
    }
  }

  // ---- inserts

  lemma InsertInv(s: State, t: nat, r: nat)
    requires Inv(s) && Legal(s, Insert(t, r))
    ensures Inv(Inserted(s, t, r))
  {
    hide RowFits, Sound, SameKinds, ValueFits, KeyOf, Ordered, UpperBound, AllValuesFit, ColumnsOnce;
    var s' := Inserted(s, t, r);
    var n := Pair(t, RowKey(KeyIn(s, t, r)));
    var k := UpperBound(Pairs(s), n);
    AllPairsFit(s);
    KeyFits(s, t, r);
    PlacedInOrder(Protos(s), Pairs(s), n);
    forall i | 0 <= i < |s'.inserts|
      ensures Shapely(s', s'.inserts[i].table, s'.inserts[i].row) && s'.inserts[i].row !in s'.db.home
    {
      assert i != k ==> s'.inserts[i] == s.inserts[if i < k then i else i - 1];
    }
    forall q | q in s.db.home
      ensures Shapely(s', s.db.home[q], q)
    {
      assert Shapely(s, s.db.home[q], q);
    }
    assert Pairs(s') == Pairs(s)[..k] + [n] + Pairs(s)[k..];
    assert s'.removes == s.removes;
    assert StagedOnce(s'.inserts) by {
      forall i, j | 0 <= i < j < |s'.inserts|
        ensures s'.inserts[i].row != s'.inserts[j].row
      {
        assert i != k ==> s'.inserts[i] == s.inserts[if i < k then i else i - 1];
        assert j != k ==> s'.inserts[j] == s.inserts[if j < k then j else j - 1];
      }
    }
  }

  lemma KeyFits(s: State, t: nat, r: nat)
    requires Shapely(s, t, r)
    ensures Fits(Protos(s), Pair(t, RowKey(KeyIn(s, t, r))))
  {
  }

  lemma AllPairsFit(s: State)
    requires StagedShapely(s)
    ensures AllFit(Protos(s), Pairs(s))
  {
    hide Fits, KeyIn;
    forall i | 0 <= i < |Pairs(s)|
      ensures Fits(Protos(s), Pairs(s)[i])
    {
      KeyFits(s, s.inserts[i].table, s.inserts[i].row);
    }
  }

  lemma InsertMembers(s: State, t: nat, r: nat, u: nat, q: nat)
    requires Inv(s) && Legal(s, Insert(t, r))
    ensures Member(Inserted(s, t, r), u, q) <==> Member(s, u, q) || (u == t && q == r)
    ensures !Member(s, u, r)
  {
    hide UpperBound, Ordered, Shapely, UpdatesOk, RemovesOk, Homed;
    var s' := Inserted(s, t, r);
    var k := UpperBound(Pairs(s), Pair(t, RowKey(KeyIn(s, t, r))));
    assert s'.inserts[k] == Staged(t, r);
    assert s.inserts == s.inserts[..k] + s.inserts[k..];
  }

  /** Staging an insert moves no data. */
  lemma InsertSeen(s: State, t: nat, r: nat, q: nat)
    requires Inv(s) && Legal(s, Insert(t, r)) && q in s.db.data
    ensures SeenRow(Inserted(s, t, r), q) == SeenRow(s, q)
    ensures Removed(Inserted(s, t, r), q) == Removed(s, q)
  {
    hide Inv;
  }

  lemma InsertAgrees(s: State, d: Db, t: nat, r: nat)
    requires Inv(s) && Legal(s, Insert(t, r)) && Agrees(s, d)
    ensures Agrees(Inserted(s, t, r), Direct(d, Insert(t, r)))
  {
    hide Inv, Member, SeenRow, Removed;
    var s' := Inserted(s, t, r);
    forall u, q
      ensures Member(s', u, q) <==> Member(s, u, q) || (u == t && q == r)
      ensures !Member(s, u, r)
    {
      InsertMembers(s, t, r, u, q);
    }
    forall q | q in d.data
      ensures SeenRow(s', q) == SeenRow(s, q) && Removed(s', q) == Removed(s, q)
    {
      InsertSeen(s, t, r, q);
    }
  }

  // ---- removes

  lemma {:induction false} DropShapely(s: State, s': State, k: nat)
    requires StagedShapely(s) && k < |s.inserts| && s'.schemas == s.schemas && s'.db == s.db
    requires s'.inserts == s.inserts[..k] + s.inserts[k + 1..]
    ensures StagedShapely(s')
    ensures forall i :: 0 <= i < |Pairs(s')| ==> Pairs(s')[i] == Pairs(s)[if i < k then i else i + 1]
  {
    hide RowFits, Sound, SameKinds, KeyOf;
    forall i | 0 <= i < |s'.inserts|
      ensures Shapely(s', s'.inserts[i].table, s'.inserts[i].row) && s'.inserts[i].row !in s'.db.home
    {
      assert s'.inserts[i] == s.inserts[if i < k then i else i + 1];
    }
  }

  lemma DropStaged(s: State, s': State, k: nat)
    requires StagedShapely(s) && k < |s.inserts| && s'.schemas == s.schemas && s'.db == s.db
    requires s'.inserts == s.inserts[..k] + s.inserts[k + 1..]
    requires StagedOnce(s.inserts) && Ordered(Pairs(s))
    ensures StagedShapely(s') && StagedOnce(s'.inserts) && Ordered(Pairs(s'))
  {
    hide Shapely, LessPair, PairAt, StagedShapely;
    DropShapely(s, s', k);
  }

  lemma RemoveInv(s: State, t: nat, r: nat)
    requires Inv(s) && Legal(s, Remove(t, r))
    ensures Inv(RemovedRow(s, t, r))
  {
    hide RowFits, Sound, SameKinds, ValueFits, KeyOf, AllValuesFit, ColumnsOnce, StagedShapely, Ordered, StagedOnce;
    var s' := RemovedRow(s, t, r);
    var k := StagedAt(s.inserts, t, r);
    if k < |s.inserts| {
      DropStaged(s, s', k);
    } else {
      SameRows(s, s');
    }
    forall q | q in s.db.home
      ensures Shapely(s', s.db.home[q], q)
    {
      assert Shapely(s, s.db.home[q], q);
    }
  }

  lemma RemoveMembers(s: State, t: nat, r: nat, u: nat, q: nat)
    requires Inv(s) && Legal(s, Remove(t, r))
    ensures Member(RemovedRow(s, t, r), u, q) <==> Member(s, u, q) && q != r
    ensures Member(s, u, r) ==> u == t
  {
    hide Ordered, Shapely, Homed, UpdatesOk;
    var k := StagedAt(s.inserts, t, r);
    if k < |s.inserts| {
      assert s.inserts == s.inserts[..k] + [s.inserts[k]] + s.inserts[k + 1..];
    }
  }

  /** A removed row apart, every row is seen as before. */
  lemma RemoveSeen(s: State, t: nat, r: nat, q: nat)
    requires Inv(s) && Legal(s, Remove(t, r)) && q in s.db.data
    ensures Removed(RemovedRow(s, t, r), q) <==> Removed(s, q) || (q == r && r in s.db.home)
    ensures !Removed(RemovedRow(s, t, r), q) ==> SeenRow(RemovedRow(s, t, r), q) == SeenRow(s, q)
  {
    hide Ordered, Shapely, Homed, UpdatesOk;
    var s' := RemovedRow(s, t, r);
    var k := StagedAt(s.inserts, t, r);
    assert k < |s.inserts| ==> s.inserts[k].row == r;
    assert r in s.db.home ==> k == |s.inserts|;
    if !Removed(s', q) {
      forall c | 0 <= c < |s.db.data[q]|
        ensures Seen(s', q, c) == Seen(s, q, c)
      {
      }
    }
  }

  lemma RemoveAgrees(s: State, d: Db, t: nat, r: nat)
    requires Inv(s) && Legal(s, Remove(t, r)) && Agrees(s, d)
    ensures Agrees(RemovedRow(s, t, r), Direct(d, Remove(t, r)))
  {
    hide Inv, Member, SeenRow, Removed, RemovedRow;
    var s' := RemovedRow(s, t, r);
    assert s'.db == s.db by { SameDb(s, t, r); }
    forall u, q
      ensures Member(s', u, q) <==> Member(s, u, q) && q != r
    {
      RemoveMembers(s, t, r, u, q);
    }
    forall q | q in d.data
      ensures Removed(s, q) ==> Removed(s', q)
      ensures !Removed(s', q) ==> SeenRow(s', q) == SeenRow(s, q)
    {
      RemoveSeen(s, t, r, q);
    }
  }

  lemma SameDb(s: State, t: nat, r: nat)
    ensures RemovedRow(s, t, r).db == s.db
  {
  }

  // ---- whole runs

  lemma StepInv(s: State, op: Op)
    requires Inv(s) && Legal(s, op)
    ensures Inv(After(s, op))
  {
    hide Inv, Writable, KeepsOrder, Wrote, Inserted, RemovedRow;
    match op
    case Write(r, c, v) => WriteExact(s, r, c, v);
    case Insert(t, r) => InsertInv(s, t, r);
    case Remove(t, r) => RemoveInv(s, t, r);
  }

  lemma StepAgrees(s: State, d: Db, op: Op)
    requires Inv(s) && Legal(s, op) && Agrees(s, d)
    ensures Agrees(After(s, op), Direct(d, op))
  {
    hide Inv, Agrees, Writable, KeepsOrder, Wrote, Inserted, RemovedRow, Direct;
    match op
    case Write(r, c, v) => WriteAgrees(s, d, r, c, v);
    case Insert(t, r) => InsertAgrees(s, d, t, r);
    case Remove(t, r) => RemoveAgrees(s, d, t, r);
  }

  ghost predicate LegalRun(s: State, ops: seq<Op>)
    requires Inv(s)
    decreases |ops|
  {
    ops == [] || (Legal(s, ops[0]) && (StepInv(s, ops[0]); LegalRun(After(s, ops[0]), ops[1..])))
  }

  ghost function RunStaged(s: State, ops: seq<Op>): State
    requires Inv(s) && LegalRun(s, ops)
    decreases |ops|
  {
    if ops == [] then s else StepInv(s, ops[0]); RunStaged(After(s, ops[0]), ops[1..])
  }

  ghost function RunDirect(d: Db, ops: seq<Op>): Db
    decreases |ops|
  {
    if ops == [] then d else RunDirect(Direct(d, ops[0]), ops[1..])
  }

  /**
   * After any operations, a transaction sees what a private copy of the database would hold had each operation been
   * carried out on it at once.
   */
  lemma {:induction false} RunAgrees(s: State, d: Db, ops: seq<Op>)
    requires Inv(s) && LegalRun(s, ops) && Agrees(s, d)
    ensures Inv(RunStaged(s, ops)) && Agrees(RunStaged(s, ops), RunDirect(d, ops))
    decreases |ops|
  {
    hide Inv, Agrees, Legal, After, Direct;
    if ops != [] {
      StepInv(s, ops[0]);
      StepAgrees(s, d, ops[0]);
      RunAgrees(After(s, ops[0]), Direct(d, ops[0]), ops[1..]);
    }
  }

  function Started(schemas: map<nat, TableSchema>, d: Db): State {
    State(schemas, d, map[], [], {})
  }

  lemma StartAgrees(schemas: map<nat, TableSchema>, d: Db)
    requires Homed(Started(schemas, d))
    ensures Inv(Started(schemas, d)) && Agrees(Started(schemas, d), d)
  {
    var s := Started(schemas, d);
    forall r | r in d.data
      ensures SeenRow(s, r) == d.data[r]
    {
      assert forall c :: 0 <= c < |d.data[r]| ==> Seen(s, r, c) == d.data[r][c];
    }
  }

  /** What the transaction sees fixes the tables and every row that is not removed. */
  lemma AgreesOnce(s: State, d: Db, e: Db)
    requires Agrees(s, d) && Agrees(s, e)
    ensures d.home == e.home && d.data.Keys == e.data.Keys
    ensures forall r :: r in d.data && !Removed(s, r) ==> d.data[r] == e.data[r]
  {
    hide Member, Removed, SeenRow;
    forall r
      ensures r in d.home <==> r in e.home
      ensures r in d.home ==> d.home[r] == e.home[r]
    {
      if r in d.home {
        assert Member(s, d.home[r], r);
      }
      if r in e.home {
        assert Member(s, e.home[r], r);
      }
    }
  }

  // ---- queries

  /** A query finds `r`: by the key the row has now, staged writes to a table row apart. */
  ghost predicate InView(s: State, t: nat, range: Range, r: nat) {
    Member(s, t, r) && Shapely(s, t, r) && InRange(range, KeyIn(s, t, r))
  }

  ghost function ViewSet(s: State, t: nat, range: Range): set<nat> {
    set r | r in s.db.data && InView(s, t, range, r)
  }

  /** The rows of table `t` in `d` with a key in range. */
  ghost function FiledSet(ts: TableSchema, d: Db, t: nat, range: Range): set<nat>
    requires Sound(ts)
  {
    set r | r in d.home && d.home[r] == t && r in d.data && RowFits(ts, d.data[r])
      && InRange(range, KeyOf(ts, d.data[r]))
  }

  lemma MemberShapely(s: State, t: nat, r: nat)
    requires Inv(s) && Member(s, t, r)
    ensures Shapely(s, t, r) && !Removed(s, r)
  {
    hide Ordered, UpdatesOk, RowFits, Sound;
    if Staged(t, r) in s.inserts {
      var i :| 0 <= i < |s.inserts| && s.inserts[i] == Staged(t, r);
      assert Shapely(s, s.inserts[i].table, s.inserts[i].row);
    } else {
      assert Shapely(s, s.db.home[r], r);
    }
  }

  lemma {:induction false} FindFits(kinds: Key, us: seq<(nat, Value)>, c: nat)
    requires AllValuesFit(kinds, us) && Find(us, c).Some?
    ensures ValueFits(kinds, c, Find(us, c).value)
    ensures exists i :: 0 <= i < |us| && us[i].0 == c
  {
    if us[0].0 != c {
      FindFits(kinds, us[1..], c);
      var i :| 0 <= i < |us[1..]| && us[1..][i].0 == c;
      assert us[i + 1].0 == c;
    }
  }

  /** A row as seen still has the columns of its table. */
  lemma SeenFits(s: State, t: nat, r: nat)
    requires Inv(s) && Member(s, t, r)
    ensures Shapely(s, t, r) && RowFits(s.schemas[t], SeenRow(s, r))
  {
    hide Ordered, AllValuesFit, ColumnsOnce, Sound, Find;
    MemberShapely(s, t, r);
    forall c | 0 <= c < |s.db.data[r]|
      ensures SameKinds([Seen(s, r, c)], [s.schemas[t].kinds[c]])
    {
      if r in s.db.home && r in s.updates && Find(s.updates[r], c).Some? {
        FindFits(s.schemas[t].kinds, s.updates[r], c);
      }
    }
    forall c | 0 <= c < |s.db.data[r]|
      ensures SeenRow(s, r)[c].Num? == s.schemas[t].kinds[c].Num?
      ensures SeenRow(s, r)[c].Dbl? == s.schemas[t].kinds[c].Dbl?
    {
      assert [Seen(s, r, c)][0] == Seen(s, r, c) && [s.schemas[t].kinds[c]][0] == s.schemas[t].kinds[c];
    }
  }

  /** No staged write moves a row of the table into the range or out of it. */
  ghost predicate StaysPut(s: State, t: nat, range: Range)
    requires Inv(s)
  {
    forall r :: Member(s, t, r) ==>
      (SeenFits(s, t, r); InRange(range, KeyIn(s, t, r)) <==> InRange(range, KeyOf(s.schemas[t], SeenRow(s, r))))
  }

  /** A query before commit finds what it will find after, exactly when no staged key write crosses the range. */
  lemma QueryAgrees(s: State, d: Db, t: nat, range: Range)
    requires Inv(s) && Agrees(s, d) && t in s.schemas && Sound(s.schemas[t])
    ensures ViewSet(s, t, range) == FiledSet(s.schemas[t], d, t, range) <==> StaysPut(s, t, range)
  {
    hide Inv, Member, SeenRow, Removed, InRange, KeyOf, RowFits, Sound, KeyIn;
    var view, filed := ViewSet(s, t, range), FiledSet(s.schemas[t], d, t, range);
    forall r
      ensures r in view <==> Member(s, t, r) && Shapely(s, t, r) && InRange(range, KeyIn(s, t, r))
      ensures Member(s, t, r) ==>
        && Shapely(s, t, r) && RowFits(s.schemas[t], SeenRow(s, r))
        && r in d.data && d.data[r] == SeenRow(s, r)
      ensures r in filed <==>
        && Member(s, t, r) && RowFits(s.schemas[t], SeenRow(s, r))
        && InRange(range, KeyOf(s.schemas[t], SeenRow(s, r)))
    {
      if Member(s, t, r) {
        MemberShapely(s, t, r);
        SeenFits(s, t, r);
      }
    }
  }

  /** Every row of the table is seen under the key it is filed under. */
  ghost predicate KeysStay(s: State, t: nat)
    requires Inv(s)
  {
    forall r :: Member(s, t, r) ==> (SeenFits(s, t, r); KeyIn(s, t, r) == KeyOf(s.schemas[t], SeenRow(s, r)))
  }

  ghost predicate EveryQueryAgrees(s: State, d: Db, t: nat)
    requires t in s.schemas && Sound(s.schemas[t])
  {
    forall range :: RangeFits(range, Picked(s.schemas[t].kinds, s.schemas[t].keyCols)) ==>
      ViewSet(s, t, range) == FiledSet(s.schemas[t], d, t, range)
  }

  /** A range of one key finds that key and no other. */
  lemma OneKey(k: Key, key: Key)
    requires SameKinds(k, key)
    ensures InRange(Eq(k), key) <==> key == k
  {
    KeyKinds(k, k, key);
    KeyKinds(key, k, k);
    KeysOrdered(k, key, k);
    KeysOrdered(k, k, k);
  }

  /** Every query of the table before commit finds what it finds after, if and only if no seen key differs. */
  lemma QueriesAgreeWhen(s: State, d: Db, t: nat)
    requires Inv(s) && Agrees(s, d) && t in s.schemas && Sound(s.schemas[t])
    ensures EveryQueryAgrees(s, d, t) <==> KeysStay(s, t)
  {
    hide Inv, Agrees, Member, ViewSet, FiledSet, SeenRow, InRange, RowFits, SameKinds;
    var ts := s.schemas[t];
    if EveryQueryAgrees(s, d, t) {
      forall r | Member(s, t, r)
        ensures Shapely(s, t, r) && RowFits(ts, SeenRow(s, r)) && KeyIn(s, t, r) == KeyOf(ts, SeenRow(s, r))
      {
        SeenFits(s, t, r);
        var stored, seen := KeyIn(s, t, r), KeyOf(ts, SeenRow(s, r));
        QueryAgrees(s, d, t, Eq(seen));
        KeyKinds(seen, stored, Picked(ts.kinds, ts.keyCols));
        KeyKinds(seen, seen, Picked(ts.kinds, ts.keyCols));
        OneKey(seen, stored);
        OneKey(seen, seen);
      }
    }
    if KeysStay(s, t) {
      forall range | RangeFits(range, Picked(ts.kinds, ts.keyCols))
        ensures ViewSet(s, t, range) == FiledSet(ts, d, t, range)
      {
        QueryAgrees(s, d, t, range);
      }
    }
  }

  /** No staged update writes a key column. */
  ghost predicate NoKeyWrites(s: State)
    requires Homed(s)
  {
    forall r, i :: r in s.updates && r in s.db.home && 0 <= i < |s.updates[r]| ==>
      s.updates[r][i].0 !in s.schemas[s.db.home[r]].keyCols
  }

  lemma KeySeen(s: State, t: nat, r: nat)
    requires Inv(s) && NoKeyWrites(s) && Member(s, t, r)
    ensures Shapely(s, t, r) && RowFits(s.schemas[t], SeenRow(s, r))
    ensures KeyOf(s.schemas[t], SeenRow(s, r)) == KeyIn(s, t, r)
  {
    hide Ordered, ColumnsOnce, Find, StagedOnce, RemovesOk, ValueFits, Removed;
    SeenFits(s, t, r);
    var ks := s.schemas[t].keyCols;
    forall j | 0 <= j < |ks|
      ensures Seen(s, r, ks[j]) == s.db.data[r][ks[j]]
    {
      if r in s.db.home && r in s.updates && Find(s.updates[r], ks[j]).Some? {
        FindFits(s.schemas[t].kinds, s.updates[r], ks[j]);
      }
    }
  }

  /** With no staged key write, every query agrees; a scan of the whole table always does. */
  lemma QueriesAgree(s: State, d: Db, t: nat, range: Range)
    requires Inv(s) && Agrees(s, d) && t in s.schemas && Sound(s.schemas[t])
    requires NoKeyWrites(s) || range == All
    ensures ViewSet(s, t, range) == FiledSet(s.schemas[t], d, t, range)
  {
    hide Agrees, Member, ViewSet, FiledSet, KeyOf, KeyIn, NoKeyWrites, SeenRow, Ordered, UpdatesOk, StagedOnce, RowFits;
    QueryAgrees(s, d, t, range);
    forall r | NoKeyWrites(s) && Member(s, t, r)
      ensures Shapely(s, t, r) && RowFits(s.schemas[t], SeenRow(s, r))
      ensures KeyOf(s.schemas[t], SeenRow(s, r)) == KeyIn(s, t, r)
    {
      KeySeen(s, t, r);
    }
  }

  /** Row 7 of table 0, with the one column, its key, holding 1 in the table and a staged write of 5. */
  lemma KeyWritten() returns (s: State, d: Db)
    ensures s == State(map[0 := TableSchema([0], [Num(0)])], Db(map[7 := 0], map[7 := [Num(1)]]),
                       map[7 := [(0, Num(5))]], [], {})
    ensures d == Db(map[7 := 0], map[7 := [Num(5)]])
    ensures Inv(s) && Agrees(s, d)
  {
    hide Agrees;
    var schemas := map[0 := TableSchema([0], [Num(0)])];
    var d0 := Db(map[7 := 0], map[7 := [Num(1)]]);
    var s0 := Started(schemas, d0);
    StartAgrees(schemas, d0);
    var op := Write(7, 0, Num(5));
    assert Legal(s0, op);
    StepInv(s0, op);
    StepAgrees(s0, d0, op);
    s, d := After(s0, op), Direct(d0, op);
    assert [Num(1)][0 := Num(5)] == [Num(5)];
  }

  /** A query for key 5 misses that row before commit and finds it after. */
  lemma KeyWriteHides()
    ensures exists s: State, d: Db, range ::
      && Inv(s) && Agrees(s, d) && 0 in s.schemas && Sound(s.schemas[0])
      && ViewSet(s, 0, range) == {} && FiledSet(s.schemas[0], d, 0, range) == {7}
  {
    hide Inv, Agrees;
    var s, d := KeyWritten();
    var ts, range := s.schemas[0], Eq([Num(5)]);
    assert KeyOf(ts, d.data[7]) == [Num(5)];
    assert Cmp([Num(5)], [Num(5)]) == 0 by { KeysOrdered([Num(5)], [Num(5)], [Num(5)]); }
    assert KeyIn(s, 0, 7) == [Num(1)];
    assert KeyLess([Num(1)], [Num(5)]);
    assert FiledSet(ts, d, 0, range) == {7};
    assert ViewSet(s, 0, range) == {};
  }
}
