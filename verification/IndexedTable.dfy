/** The indexed table as it works: index rows made, dropped and made again around every change of a base row. */
module IndexedTable {
  import opened Options
  import opened IndexSpec

  method Fresh(m: map<nat, IndexRow>) returns (x: nat)
    ensures x !in m
  {
    x := 0;
    var todo := m.Keys;
    while todo != {}
      invariant todo <= m.Keys && forall y :: y in m && y !in todo ==> y < x
    {
      var y :| y in todo;
      todo := todo - {y};
      if x <= y {
        x := y + 1;
      }
    }
  }

  /** The rows filed under `key` are swept for the row itself. */
  method Sweep(filed: map<nat, Key>, key: Key, r: nat) returns (found: bool)
    ensures found <==> r in filed && filed[r] == key
  {
    var todo := set q | q in filed && filed[q] == key;
    while todo != {}
      invariant forall q :: q in todo ==> q in filed && filed[q] == key
      invariant r in filed && filed[r] == key ==> r in todo
    {
      var q :| q in todo;
      if q == r {
        return true;
      }
      todo := todo - {q};
    }
    found := false;
  }

  class Indexed {
    const sch: Schema
    var cols: map<nat, seq<Value>>
    var rows: map<nat, Key>
    var master: map<nat, seq<Option<nat>>>
    var index: seq<map<nat, IndexRow>>

    ghost function T(): Table
      reads this
    {
      Table(cols, rows, master, index)
    }

    ghost predicate Ok()
      reads this
    {
      Consistent(sch, T())
    }

    constructor (sch: Schema)
      requires SchemaOk(sch)
      ensures this.sch == sch && Ok() && cols == map[] && rows == map[]
    {
      this.sch := sch;
      cols, rows, master := map[], map[], map[];
      index := seq(|sch.indexes|, i => map[]);
    }

    /** A new row object, not in the table yet. */
    method NewRow(r: nat, values: seq<Value>)
      requires Ok() && r !in cols && |values| == sch.columns
      modifies this`cols
      ensures Ok() && cols == old(cols)[r := values]
    {
      NewRowOk(sch, T(), r, values);
      hide Consistent;
      cols := cols[r := values];
    }

    /** `make_index_row` and its insertion into the index table. */
    method MakeIndexRow(r: nat, i: nat, ghost have: seq<bool>)
      requires Partial(sch, T(), r, have) && i < |index| && !have[i]
      modifies this`master, this`index
      ensures Partial(sch, T(), r, have[i := true]) && |index| == old(|index|) && master.Keys == old(master.Keys)
    {
      ghost var t := T();
      var x := Fresh(index[i]);
      AddOk(sch, t, r, have, i, x);
      hide Partial;
      var entries: map<nat, IndexRow> := index[i][x := IndexRow(Picked(cols[r], sch.indexes[i]), r)];
      index := index[i := entries];
      master := master[r := master[r][i := Some(x)]];
    }

    /** Removing one index row of `r` and the reference to it. */
    method DropIndexRow(r: nat, i: nat, ghost have: seq<bool>)
      requires Partial(sch, T(), r, have) && i < |index| && have[i]
      modifies this`master, this`index
      ensures Partial(sch, T(), r, have[i := false]) && |index| == old(|index|) && master.Keys == old(master.Keys)
    {
      DropOk(sch, T(), r, have, i);
      hide Partial;
      var x := master[r][i].value;
      assert x in index[i] by { SlotFiled(sch, T(), r, have, i); }
      var keys := map y | y in index[i] :: index[i][y].key;
      var found := Sweep(keys, index[i][x].key, x);
      if found {
        index := index[i := index[i] - {x}];
      }
      master := master[r := master[r][i := None]];
    }

    /**
     * `insert`: a row without a master index gets one, with an entry in every index; a row that still has one, after a
     * removal without `do_free`, keeps its entries.  Then it is filed.
     */
    method Insert(r: nat)
      requires r in cols && r !in rows
      requires if r in master then Partial(sch, T(), r, Marks(|index|, true)) else Ok()
      modifies this`rows, this`master, this`index
      ensures Ok() && rows.Keys == old(rows.Keys) + {r}
      ensures r in old(master) ==> master == old(master) && index == old(index)
    {
      hide Partial, Consistent;
      if r !in master {
        EnterIndexes(r);
      }
      Bounds(sch, T(), r, Marks(|index|, true));
      FileOk(sch, T(), r);
      rows := rows[r := Picked(cols[r], sch.keyCols)];
    }

    /** A new master index, and an entry in every index. */
    method EnterIndexes(r: nat)
      requires Ok() && r in cols && r !in rows
      modifies this`master, this`index
      ensures Partial(sch, T(), r, Marks(|index|, true))
    {
      hide Partial, Consistent;
      JoinOk(sch, T(), r);
      master := master[r := NoSlots(|index|)];
      ghost var have := Marks(|index|, false);
      for i := 0 to |index|
        invariant |index| == old(|index|) && Partial(sch, T(), r, have)
        invariant |have| == |index| && forall j :: 0 <= j < |have| ==> have[j] == (j < i)
      {
        MakeIndexRow(r, i, have);
        have := have[i := true];
      }
      assert have == Marks(|index|, true);
    }

    /** A row removed without being freed and inserted again is where it was, and so is every index entry. */
    method RemoveAndInsert(r: nat)
      requires Ok() && r in rows
      modifies this
      ensures Ok() && T() == old(T())
    {
      hide Partial, Consistent;
      Members(sch, T());
      PickOut(sch, T(), r);
      UnfileOk(sch, T(), r, Marks(|index|, true));
      assert r in master by { InMaster(sch, T(), r); }
      Remove(r, false);
      Insert(r);
      Members(sch, T());
      assert rows == old(rows);
    }

    /** `destroy_secondary_indices`. */
    method DestroySecondaryIndices(r: nat)
      requires Partial(sch, T(), r, Marks(|index|, true))
      modifies this`master, this`index
      ensures Partial(sch, T(), r, Marks(|index|, false)) && |index| == old(|index|) && master.Keys == old(master.Keys)
    {
      hide Partial;
      ghost var have := Marks(|index|, true);
      for i := 0 to |index|
        invariant |index| == old(|index|) && master.Keys == old(master.Keys) && Partial(sch, T(), r, have)
        invariant |have| == |index| && forall j :: 0 <= j < |have| ==> have[j] == (j >= i)
      {
        DropIndexRow(r, i, have);
        have := have[i := false];
      }
      assert have == Marks(|index|, false);
    }

    /** The base row is looked up under the key its columns have now. */
    method FindFiled(r: nat) returns (found: bool)
      requires SchemaOk(sch) && r in cols && |cols[r]| == sch.columns
      ensures found <==> r in rows && rows[r] == Picked(cols[r], sch.keyCols)
    {
      found := Sweep(rows, Picked(cols[r], sch.keyCols), r);
    }

    /** `remove`: a row that is freed takes its index rows with it; one that is not leaves the base table only. */
    method Remove(r: nat, doFree: bool)
      requires Ok() && r in cols
      modifies this
      ensures rows == old(rows) - {r}
      ensures r !in old(rows) ==> T() == old(T())
      ensures r in old(rows) && doFree ==> Ok() && cols == old(cols) - {r}
      ensures r in old(rows) && !doFree ==> T() == RemovedOnly(old(T()), r)
    {
      hide Consistent;
      Members(sch, T());
      var found := FindFiled(r);
      if !found {
        assert rows - {r} == rows;
      } else if doFree {
        Free(r);
      } else {
        rows := rows - {r};
      }
    }

    method Free(r: nat)
      requires Ok() && r in rows
      modifies this
      ensures Ok() && rows == old(rows) - {r} && cols == old(cols) - {r}
    {
      hide Partial, Consistent;
      Members(sch, T());
      PickOut(sch, T(), r);
      DestroySecondaryIndices(r);
      Bounds(sch, T(), r, Marks(|index|, false));
      UnfileOk(sch, T(), r, Marks(|index|, false));
      rows := rows - {r};
      GoneOk(sch, T(), r);
      cols, master := cols - {r}, master - {r};
    }

    /** `notify_before_update`: the entries in the indexes on column `c` go. */
    method NotifyBeforeUpdate(r: nat, c: nat)
      requires Partial(sch, T(), r, Marks(|index|, true)) && |index| == |sch.indexes|
      modifies this`master, this`index
      ensures |index| == old(|index|) && Partial(sch, T(), r, Spared(sch, c))
    {
      hide Partial;
      ghost var have := Marks(|index|, true);
      for i := 0 to |index|
        invariant |index| == old(|index|) && Partial(sch, T(), r, have)
        invariant |have| == |index| && forall j :: 0 <= j < |have| ==> have[j] == (j < i ==> !Affected(sch, j, c))
      {
        if Affected(sch, i, c) {
          DropIndexRow(r, i, have);
          have := have[i := false];
        }
      }
      assert have == Spared(sch, c);
    }

    /** `notify_after_update`: they are made again. */
    method NotifyAfterUpdate(r: nat, c: nat)
      requires Partial(sch, T(), r, Spared(sch, c)) && |index| == |sch.indexes|
      modifies this`master, this`index
      ensures |index| == old(|index|) && Partial(sch, T(), r, Marks(|index|, true))
    {
      hide Partial;
      ghost var have := Spared(sch, c);
      for i := 0 to |index|
        invariant |index| == old(|index|) && Partial(sch, T(), r, have)
        invariant |have| == |index| && forall j :: 0 <= j < |have| ==> have[j] == (j < i || !Affected(sch, j, c))
      {
        if Affected(sch, i, c) {
          MakeIndexRow(r, i, have);
          have := have[i := true];
        }
      }
      assert have == Marks(|index|, true);
    }

    /** Out of the indexes on column `c`, and out of the base table. */
    method Withdraw(r: nat, c: nat)
      requires Ok() && r in rows
      modifies this`rows, this`master, this`index
      ensures Partial(sch, T(), r, Spared(sch, c)) && rows == old(rows) - {r}
    {
      hide Partial, Consistent;
      Members(sch, T());
      PickOut(sch, T(), r);
      NotifyBeforeUpdate(r, c);
      UnfileOk(sch, T(), r, Spared(sch, c));
      var found := FindFiled(r);
      if found {
        rows := rows - {r};
      }
    }

    /** Back into the base table, then back into the indexes on column `c`. */
    method Return(r: nat, c: nat)
      requires Partial(sch, T(), r, Spared(sch, c))
      modifies this`rows, this`master, this`index
      ensures Ok() && rows.Keys == old(rows.Keys) + {r}
    {
      hide Partial, Consistent;
      Bounds(sch, T(), r, Spared(sch, c));
      UnfileOk(sch, T(), r, Spared(sch, c));
      rows := rows[r := Picked(cols[r], sch.keyCols)];
      NotifyAfterUpdate(r, c);
      Bounds(sch, T(), r, Marks(|index|, true));
      FileOk(sch, T(), r);
      FiledTwice(sch, T(), r);
    }

    /** An update of an indexed column of a base row: out of the indexes and the table, written, and back in. */
    method Reinsert(r: nat, c: nat, v: Value)
      requires Ok() && r in rows && c < sch.columns
      modifies this
      ensures Ok() && rows.Keys == old(rows.Keys) && r in old(cols) && |old(cols)[r]| == sch.columns
      ensures cols == old(cols)[r := old(cols)[r][c := v]]
    {
      hide Partial, Consistent;
      Members(sch, T());
      Withdraw(r, c);
      Bounds(sch, T(), r, Spared(sch, c));
      ChangeOk(sch, T(), r, Spared(sch, c), c, v);
      cols := cols[r := cols[r][c := v]];
      Return(r, c);
    }

    /**
     * `update`: nothing happens for an equal value; the indexes take part when the column is in the key or in an index.
     */
    method Update(r: nat, c: nat, v: Value)
      requires Ok() && r in cols && c < sch.columns
      modifies this
      ensures Ok() && rows.Keys == old(rows.Keys) && |old(cols)[r]| == sch.columns
      ensures cols == old(cols)[r := old(cols)[r][c := v]]
    {
      hide Consistent;
      Members(sch, T());
      if cols[r][c] == v {
        assert cols[r][c := v] == cols[r];
        return;
      }
      if r in rows && InKeyOrIndex(sch, c) {
        Reinsert(r, c, v);
      } else {
        QuietChange(sch, T(), r, c, v);
        cols := cols[r := cols[r][c := v]];
      }
    }

    /** A query by key, following each entry to its base row. */
    method Query(i: nat, key: Key) returns (found: set<nat>)
      requires Ok() && i < |index|
      ensures forall r :: r in found <==> r in rows && r in cols && Holds(cols[r], sch.indexes[i], key)
    {
      found := {};
      var todo := index[i].Keys;
      while todo != {}
        invariant todo <= index[i].Keys
        invariant forall r :: r in found <==>
          exists x :: x in index[i] && x !in todo && index[i][x].key == key && index[i][x].base == r
      {
        var x :| x in todo;
        todo := todo - {x};
        if index[i][x].key == key {
          found := found + {index[i][x].base};
        }
      }
      QueryFilters(sch, T(), i, k => k == key);
      assert forall r :: r in found <==> r in Found(T(), i, k => k == key);
      forall r | r in rows
        ensures r in cols && (Holds(cols[r], sch.indexes[i], key) <==> Picked(cols[r], sch.indexes[i]) == key)
      {
        HoldsIs(cols[r], sch.indexes[i], key);
      }
    }
  }

  /** The row has the values of `key` in the columns `cs`, one by one. */
  ghost predicate Holds(row: seq<Value>, cs: seq<nat>, key: Key) {
    |key| == |cs| && forall j :: 0 <= j < |cs| ==> cs[j] < |row| && row[cs[j]] == key[j]
  }

  lemma HoldsIs(row: seq<Value>, cs: seq<nat>, key: Key)
    requires forall j :: 0 <= j < |cs| ==> cs[j] < |row|
    ensures Holds(row, cs, key) <==> Picked(row, cs) == key
  {
  }

  /** The indexes that a change of column `c` leaves alone. */
  ghost function Spared(sch: Schema, c: nat): (s: seq<bool>)
    ensures |s| == |sch.indexes| && forall i :: 0 <= i < |s| ==> s[i] == !Affected(sch, i, c)
  {
    seq(|sch.indexes|, i requires 0 <= i < |sch.indexes| => !Affected(sch, i, c))
  }

  /** The `indexed` mark of a column. */
  predicate InKeyOrIndex(sch: Schema, c: nat) {
    c in sch.keyCols || exists i :: 0 <= i < |sch.indexes| && Affected(sch, i, c)
  }

  lemma Members(sch: Schema, t: Table)
    requires Consistent(sch, t)
    ensures SchemaOk(sch) && |t.index| == |sch.indexes| && forall r :: r in t.cols ==> |t.cols[r]| == sch.columns
    ensures forall r :: r in t.rows ==> r in t.cols && t.rows[r] == Picked(t.cols[r], sch.keyCols)
  {
  }

  lemma SlotFiled(sch: Schema, t: Table, r: nat, have: seq<bool>, i: nat)
    requires Partial(sch, t, r, have) && i < |t.index| && have[i]
    ensures r in t.master && t.master[r][i].Some? && t.master[r][i].value in t.index[i]
  {
    assert EntryOk(sch, t, r, i);
  }

  /** A row whose key is written while it is filed is no longer found: removal must come before the write. */
  lemma WrittenFirst(sch: Schema, t: Table, r: nat, c: nat, v: Value)
    requires Consistent(sch, t) && r in t.rows && c in sch.keyCols
    ensures r in t.cols && c < |t.cols[r]| == sch.columns && SchemaOk(sch)
    ensures t.rows[r] == Picked(t.cols[r][c := v], sch.keyCols) <==> v == t.cols[r][c]
  {
    var j :| 0 <= j < |sch.keyCols| && sch.keyCols[j] == c;
    assert Picked(t.cols[r], sch.keyCols)[j] == t.cols[r][c] && Picked(t.cols[r][c := v], sch.keyCols)[j] == v;
    if v == t.cols[r][c] {
      assert t.cols[r][c := v] == t.cols[r];
    }
  }

  lemma Bounds(sch: Schema, t: Table, r: nat, have: seq<bool>)
    requires Partial(sch, t, r, have)
    ensures r in t.cols && |t.cols[r]| == sch.columns && SchemaOk(sch) && |t.index| == |sch.indexes|
  {
  }

  lemma NewRowOk(sch: Schema, t: Table, r: nat, values: seq<Value>)
    requires Consistent(sch, t) && r !in t.cols && |values| == sch.columns
    ensures Consistent(sch, t.(cols := t.cols[r := values]))
  {
    var t' := t.(cols := t.cols[r := values]);
    forall i, x | 0 <= i < |t'.index| && x in t'.index[i]
      ensures Backed(t', i, x)
    {
      assert Backed(t, i, x);
    }
    forall q, i | q in t'.rows && 0 <= i < |t'.index|
      ensures EntryOk(sch, t', q, i)
    {
      assert EntryOk(sch, t, q, i);
    }
  }

  lemma FiledTwice(sch: Schema, t: Table, r: nat)
    requires r in t.cols && (forall j :: 0 <= j < |sch.keyCols| ==> sch.keyCols[j] < |t.cols[r]|) && r in t.rows
    requires t.rows[r] == Picked(t.cols[r], sch.keyCols)
    ensures Filed(sch, t, r) == t
  {
    assert t.rows[r := t.rows[r]] == t.rows;
  }

  /** A change that no key and no index can see. */
  lemma QuietChange(sch: Schema, t: Table, r: nat, c: nat, v: Value)
    requires Consistent(sch, t) && r in t.cols && c < sch.columns && (r !in t.rows || !InKeyOrIndex(sch, c))
    ensures Consistent(sch, t.(cols := t.cols[r := t.cols[r][c := v]]))
  {
    var t' := t.(cols := t.cols[r := t.cols[r][c := v]]);
    if r in t.rows {
      PickedSame(t.cols[r], sch.keyCols, c, v);
    }
    assert Shaped(sch, t');
    forall i, x | 0 <= i < |t'.index| && x in t'.index[i]
      ensures Backed(t', i, x)
    {
      assert Backed(t, i, x);
    }
    forall q, i | q in t'.rows && 0 <= i < |t'.index|
      ensures EntryOk(sch, t', q, i)
    {
      assert EntryOk(sch, t, q, i);
      if q == r {
        assert !Affected(sch, i, c);
        PickedSame(t.cols[r], sch.indexes[i], c, v);
      }
    }
  }

  // ---- Removing without freeing

  /** `remove(row, false)`: the row leaves the base table, its index rows stay. */
  function RemovedOnly(t: Table, r: nat): Table {
    t.(rows := t.rows - {r})
  }

  /** The base rows that index `i` leads to. */
  ghost function Reached(t: Table, i: nat): set<nat>
    requires i < |t.index|
  {
    set x | x in t.index[i] :: t.index[i][x].base
  }

  /** Every index leads to the rows of the base table, and to no others. */
  ghost predicate Agrees(t: Table) {
    forall i :: 0 <= i < |t.index| ==> Reached(t, i) == t.rows.Keys
  }

  lemma ConsistentAgrees(sch: Schema, t: Table)
    requires Consistent(sch, t)
    ensures Agrees(t)
  {
    forall i | 0 <= i < |t.index|
      ensures Reached(t, i) == t.rows.Keys
    {
      QueryFilters(sch, t, i, k => true);
      assert Found(t, i, k => true) == Reached(t, i);
      assert Filtered(sch, t, i, k => true) == t.rows.Keys;
    }
  }

  /** A row that is removed but not freed is still found through every index: they agree only if there are none. */
  lemma RemoveWithoutFree(sch: Schema, t: Table, r: nat)
    requires Consistent(sch, t) && r in t.rows
    ensures Agrees(RemovedOnly(t, r)) <==> |t.index| == 0
  {
    if |t.index| > 0 {
      assert EntryOk(sch, t, r, 0);
      var t', x := RemovedOnly(t, r), t.master[r][0].value;
      assert t'.index[0][x].base in Reached(t', 0);
    }
  }

  /** Row 7 with its one column indexed, and the index row 3 that leads to it. */
  function OneRow(): (Schema, Table) {
    (Schema(1, [0], [[0]]),
     Table(map[7 := [Num(5)]], map[7 := [Num(5)]], map[7 := [Some(3)]], [map[3 := IndexRow([Num(5)], 7)]]))
  }

  lemma OneRowConsistent()
    ensures Consistent(OneRow().0, OneRow().1)
  {
    var sch, t := OneRow().0, OneRow().1;
    assert Picked([Num(5)], [0]) == [Num(5)];
    assert Shaped(sch, t);
    assert EntryOk(sch, t, 7, 0);
    assert AllBacked(t);
  }

  lemma InMaster(sch: Schema, t: Table, r: nat)
    requires Consistent(sch, t) && r in t.rows
    ensures r in t.master
  {
  }

  /** Columns changed while the row is out of the table, which nothing is told of, and the row inserted again. */
  function InsertedAgain(sch: Schema, t: Table, r: nat, cols: seq<Value>): Table
    requires SchemaOk(sch) && |cols| == sch.columns
  {
    Filed(sch, RemovedOnly(t, r).(cols := t.cols[r := cols]), r)
  }

  /** The table is consistent again if and only if no indexed column has changed. */
  lemma InsertAgain(sch: Schema, t: Table, r: nat, cols: seq<Value>)
    requires Consistent(sch, t) && r in t.rows && |cols| == sch.columns
    ensures r in t.cols && |t.cols[r]| == sch.columns && SchemaOk(sch)
    ensures Consistent(sch, InsertedAgain(sch, t, r, cols)) <==>
      forall i :: 0 <= i < |sch.indexes| ==> Picked(cols, sch.indexes[i]) == Picked(t.cols[r], sch.indexes[i])
  {
    var t' := InsertedAgain(sch, t, r, cols);
    assert t'.rows.Keys == t.rows.Keys;
    assert Shaped(sch, t');
    forall q, i | q in t'.rows && 0 <= i < |t'.index|
      ensures EntryOk(sch, t', q, i) <==> q != r || Picked(cols, sch.indexes[i]) == Picked(t.cols[r], sch.indexes[i])
    {
      assert EntryOk(sch, t, q, i);
    }
    forall i, x | 0 <= i < |t'.index| && x in t'.index[i]
      ensures Backed(t', i, x)
    {
      assert Backed(t, i, x);
    }
    if Consistent(sch, t') {
      assert forall i :: 0 <= i < |t'.index| ==> EntryOk(sch, t', r, i);
    }
  }

  /** Removed without being freed, that row stays in the index. */
  lemma LeftBehind()
    ensures exists sch, t, r :: Consistent(sch, t) && r in t.rows && !Agrees(RemovedOnly(t, r))
  {
    hide Consistent, Agrees, RemovedOnly;
    OneRowConsistent();
    var sch, t := OneRow().0, OneRow().1;
    RemoveWithoutFree(sch, t, 7);
    assert Consistent(sch, t) && 7 in t.rows && !Agrees(RemovedOnly(t, 7));
  }
}
