/**
 * A table with secondary indexes: base rows filed under their key, and per index a row for each base row, filed under
 * the indexed columns and leading back to the base row through its master index.
 */
module IndexSpec {
  import opened Options

  datatype Value = Num(n: int) | Dbl(d: real) | Str(s: seq<nat>)

  type Key = seq<Value>

  /** Key columns, and the columns of each index. */
  datatype Schema = Schema(columns: nat, keyCols: seq<nat>, indexes: seq<seq<nat>>)

  predicate SchemaOk(sch: Schema) {
    && (forall j :: 0 <= j < |sch.keyCols| ==> sch.keyCols[j] < sch.columns)
    && forall i, j :: 0 <= i < |sch.indexes| && 0 <= j < |sch.indexes[i]| ==> sch.indexes[i][j] < sch.columns
  }

  /** The columns `cs` of a row. */
  function Picked(row: seq<Value>, cs: seq<nat>): Key
    requires forall j :: 0 <= j < |cs| ==> cs[j] < |row|
  {
    seq(|cs|, j requires 0 <= j < |cs| => row[cs[j]])
  }

  /** An index row: the key it is filed under, and the base row that its master index leads to. */
  datatype IndexRow = IndexRow(key: Key, base: nat)

  /**
   * `cols` are the row objects with their columns; `rows` the base rows with the key each is filed under; `master` the
   * slots of each master index; `index` the rows of each index table.
   */
  datatype Table = Table(
    cols: map<nat, seq<Value>>, rows: map<nat, Key>, master: map<nat, seq<Option<nat>>>, index: seq<map<nat, IndexRow>>)

  ghost predicate Shaped(sch: Schema, t: Table) {
    && SchemaOk(sch) && |t.index| == |sch.indexes|
    && (forall r :: r in t.cols ==> |t.cols[r]| == sch.columns)
    && (forall r :: r in t.rows ==> r in t.cols && t.rows[r] == Picked(t.cols[r], sch.keyCols))
    && (forall r :: r in t.master ==> r in t.cols && |t.master[r]| == |t.index|)
  }

  /** Index `i` holds exactly one entry for `r`: the one in its slot, filed under the current columns. */
  ghost predicate EntryOk(sch: Schema, t: Table, r: nat, i: nat)
    requires Shaped(sch, t) && i < |t.index|
  {
    && r in t.master && t.master[r][i].Some?
    && var x := t.master[r][i].value; x in t.index[i] && t.index[i][x] == IndexRow(Picked(t.cols[r], sch.indexes[i]), r)
  }

  ghost predicate NoEntry(t: Table, r: nat, i: nat)
    requires i < |t.index| && (forall q :: q in t.master ==> |t.master[q]| == |t.index|)
  {
    r in t.master && t.master[r][i] == None
  }

  /** Every index row is the one in its base row's slot. */
  ghost predicate Backed(t: Table, i: nat, x: nat)
    requires i < |t.index| && x in t.index[i]
  {
    var r := t.index[i][x].base;
    r in t.master && i < |t.master[r]| && t.master[r][i] == Some(x)
  }

  ghost predicate AllBacked(t: Table) {
    forall i, x :: 0 <= i < |t.index| && x in t.index[i] ==> Backed(t, i, x)
  }

  /** Every base row but `r` is in every index, `r` in those that `have` marks only. */
  ghost predicate Partial(sch: Schema, t: Table, r: nat, have: seq<bool>) {
    && Shaped(sch, t) && AllBacked(t) && |have| == |t.index| && r in t.cols && r in t.master
    && (forall q :: q in t.master && q != r ==> q in t.rows)
    && (forall q :: q in t.rows && q != r ==> q in t.master)
    && (forall q, i :: q in t.rows && q != r && 0 <= i < |t.index| ==> EntryOk(sch, t, q, i))
    && (forall i :: 0 <= i < |t.index| ==> if have[i] then EntryOk(sch, t, r, i) else NoEntry(t, r, i))
  }

  /** Every base row is in every index, and only base rows are. */
  ghost predicate Consistent(sch: Schema, t: Table) {
    && Shaped(sch, t) && AllBacked(t) && t.master.Keys == t.rows.Keys
    && forall q, i :: q in t.rows && 0 <= i < |t.index| ==> EntryOk(sch, t, q, i)
  }

  // ---- One entry more, one entry less

  function Added(sch: Schema, t: Table, r: nat, i: nat, x: nat): Table
    requires i < |t.index| == |sch.indexes| && r in t.master && i < |t.master[r]| && r in t.cols
    requires forall j :: 0 <= j < |sch.indexes[i]| ==> sch.indexes[i][j] < |t.cols[r]|
  {
    var entries: map<nat, IndexRow> := t.index[i][x := IndexRow(Picked(t.cols[r], sch.indexes[i]), r)];
    t.(index := t.index[i := entries], master := t.master[r := t.master[r][i := Some(x)]])
  }

  lemma AddOk(sch: Schema, t: Table, r: nat, have: seq<bool>, i: nat, x: nat)
    requires Partial(sch, t, r, have) && i < |t.index| && !have[i] && x !in t.index[i]
    ensures Partial(sch, Added(sch, t, r, i, x), r, have[i := true])
  {
    assert NoEntry(t, r, i);
    var t' := Added(sch, t, r, i, x);
    forall j, y | 0 <= j < |t'.index| && y in t'.index[j]
      ensures Backed(t', j, y)
    {
      assert y in t.index[j] ==> Backed(t, j, y);
    }
    forall q, j | q in t'.rows && q != r && 0 <= j < |t'.index|
      ensures EntryOk(sch, t', q, j)
    {
      assert EntryOk(sch, t, q, j);
    }
    forall j | 0 <= j < |t'.index|
      ensures if have[i := true][j] then EntryOk(sch, t', r, j) else NoEntry(t', r, j)
    {
      assert if have[j] then EntryOk(sch, t, r, j) else NoEntry(t, r, j);
    }
  }

  function Dropped(t: Table, r: nat, i: nat): Table
    requires i < |t.index| && r in t.master && i < |t.master[r]| && t.master[r][i].Some?
  {
    var x := t.master[r][i].value;
    t.(index := t.index[i := t.index[i] - {x}], master := t.master[r := t.master[r][i := None]])
  }

  lemma DropOk(sch: Schema, t: Table, r: nat, have: seq<bool>, i: nat)
    requires Partial(sch, t, r, have) && i < |t.index| && have[i]
    ensures r in t.master && t.master[r][i].Some? && Partial(sch, Dropped(t, r, i), r, have[i := false])
  {
    assert EntryOk(sch, t, r, i);
    var t', x := Dropped(t, r, i), t.master[r][i].value;
    forall j, y | 0 <= j < |t'.index| && y in t'.index[j]
      ensures Backed(t', j, y)
    {
      assert Backed(t, j, y);
    }
    forall q, j | q in t'.rows && q != r && 0 <= j < |t'.index|
      ensures EntryOk(sch, t', q, j)
    {
      assert EntryOk(sch, t, q, j);
    }
    forall j | 0 <= j < |t'.index|
      ensures if have[i := false][j] then EntryOk(sch, t', r, j) else NoEntry(t', r, j)
    {
      assert if have[j] then EntryOk(sch, t, r, j) else NoEntry(t, r, j);
    }
  }

  // ---- A row joins, leaves, and changes

  function Marks(n: nat, b: bool): (s: seq<bool>)
    ensures |s| == n && forall i :: 0 <= i < n ==> s[i] == b
  {
    seq(n, i => b)
  }

  function NoSlots(n: nat): (s: seq<Option<nat>>)
    ensures |s| == n && forall i :: 0 <= i < n ==> s[i] == None
  {
    seq(n, i => None)
  }

  /** A row object that is not in the table gets a master index with empty slots. */
  lemma JoinOk(sch: Schema, t: Table, r: nat)
    requires Consistent(sch, t) && r in t.cols && r !in t.rows
    ensures Partial(sch, t.(master := t.master[r := NoSlots(|t.index|)]), r, Marks(|t.index|, false))
  {
    var t' := t.(master := t.master[r := NoSlots(|t.index|)]);
    forall i, x | 0 <= i < |t'.index| && x in t'.index[i]
      ensures Backed(t', i, x)
    {
      assert Backed(t, i, x);
      assert t.index[i][x].base in t.master;
    }
    forall q, i | q in t'.rows && q != r && 0 <= i < |t'.index|
      ensures EntryOk(sch, t', q, i)
    {
      assert EntryOk(sch, t, q, i);
    }
  }

  function Filed(sch: Schema, t: Table, r: nat): Table
    requires r in t.cols && forall j :: 0 <= j < |sch.keyCols| ==> sch.keyCols[j] < |t.cols[r]|
  {
    t.(rows := t.rows[r := Picked(t.cols[r], sch.keyCols)])
  }

  /** A row that is in all indexes is filed in the base table. */
  lemma FileOk(sch: Schema, t: Table, r: nat)
    requires Partial(sch, t, r, Marks(|t.index|, true))
    ensures Consistent(sch, Filed(sch, t, r))
  {
    var t' := Filed(sch, t, r);
    forall i, x | 0 <= i < |t'.index| && x in t'.index[i]
      ensures Backed(t', i, x)
    {
      assert Backed(t, i, x);
    }
    forall q, i | q in t'.rows && 0 <= i < |t'.index|
      ensures EntryOk(sch, t', q, i)
    {
      assert EntryOk(sch, t, q, i);
    }
  }

  /** A base row, looked at on its own. */
  lemma PickOut(sch: Schema, t: Table, r: nat)
    requires Consistent(sch, t) && r in t.rows
    ensures Partial(sch, t, r, Marks(|t.index|, true))
  {
    assert forall i :: 0 <= i < |t.index| ==> EntryOk(sch, t, r, i);
  }

  /** Taking the row out of the base table, or filing it again, does not touch the indexes. */
  lemma UnfileOk(sch: Schema, t: Table, r: nat, have: seq<bool>)
    requires Partial(sch, t, r, have)
    ensures Partial(sch, t.(rows := t.rows - {r}), r, have) && Partial(sch, Filed(sch, t, r), r, have)
  {
    forall t' | t' == t.(rows := t.rows - {r}) || t' == Filed(sch, t, r)
      ensures Partial(sch, t', r, have)
    {
      assert t'.cols == t.cols && t'.master == t.master && t'.index == t.index;
      SameEntries(sch, t, t', r, have);
    }
  }

  lemma SameEntries(sch: Schema, t: Table, t': Table, r: nat, have: seq<bool>)
    requires Partial(sch, t, r, have) && Shaped(sch, t') && t' == t.(rows := t'.rows)
    requires forall q :: q != r ==> (q in t'.rows <==> q in t.rows)
    ensures Partial(sch, t', r, have)
  {
    forall i, x | 0 <= i < |t'.index| && x in t'.index[i]
      ensures Backed(t', i, x)
    {
      assert Backed(t, i, x);
    }
    forall q, i | q in t'.rows && q != r && 0 <= i < |t'.index|
      ensures EntryOk(sch, t', q, i)
    {
      assert EntryOk(sch, t, q, i);
    }
    forall i | 0 <= i < |t'.index|
      ensures if have[i] then EntryOk(sch, t', r, i) else NoEntry(t', r, i)
    {
      assert if have[i] then EntryOk(sch, t, r, i) else NoEntry(t, r, i);
    }
  }

  /** The row goes, and its master index with it. */
  lemma GoneOk(sch: Schema, t: Table, r: nat)
    requires Partial(sch, t, r, Marks(|t.index|, false)) && r !in t.rows
    ensures Consistent(sch, t.(cols := t.cols - {r}, master := t.master - {r}))
  {
    var t' := t.(cols := t.cols - {r}, master := t.master - {r});
    forall i, x | 0 <= i < |t'.index| && x in t'.index[i]
      ensures Backed(t', i, x)
    {
      assert Backed(t, i, x);
      assert NoEntry(t, r, i);
    }
    forall q, i | q in t'.rows && 0 <= i < |t'.index|
      ensures EntryOk(sch, t', q, i)
    {
      assert EntryOk(sch, t, q, i);
    }
  }

  predicate Affected(sch: Schema, i: nat, c: nat)
    requires i < |sch.indexes|
  {
    c in sch.indexes[i]
  }

  /** A column changes while the row is out of the base table and of every index on that column. */
  lemma ChangeOk(sch: Schema, t: Table, r: nat, have: seq<bool>, c: nat, v: Value)
    requires Partial(sch, t, r, have) && r !in t.rows && c < sch.columns
    requires forall i :: 0 <= i < |t.index| && have[i] ==> !Affected(sch, i, c)
    ensures Partial(sch, t.(cols := t.cols[r := t.cols[r][c := v]]), r, have)
  {
    var t' := t.(cols := t.cols[r := t.cols[r][c := v]]);
    assert Shaped(sch, t');
    forall i, x | 0 <= i < |t'.index| && x in t'.index[i]
      ensures Backed(t', i, x)
    {
      assert Backed(t, i, x);
    }
    forall q, i | q in t'.rows && q != r && 0 <= i < |t'.index|
      ensures EntryOk(sch, t', q, i)
    {
      assert EntryOk(sch, t, q, i);
    }
    forall i | 0 <= i < |t'.index|
      ensures if have[i] then EntryOk(sch, t', r, i) else NoEntry(t', r, i)
    {
      assert if have[i] then EntryOk(sch, t, r, i) else NoEntry(t, r, i);
      if have[i] {
        PickedSame(t.cols[r], sch.indexes[i], c, v);
      }
    }
  }

  lemma PickedSame(row: seq<Value>, cs: seq<nat>, c: nat, v: Value)
    requires c < |row| && c !in cs && forall j :: 0 <= j < |cs| ==> cs[j] < |row|
    ensures Picked(row[c := v], cs) == Picked(row, cs)
  {
  }

  // ---- Queries

  /** The base rows behind the entries of index `i` whose key satisfies `p`. */
  ghost function Found(t: Table, i: nat, p: Key -> bool): set<nat>
    requires i < |t.index|
  {
    set x | x in t.index[i] && p(t.index[i][x].key) :: t.index[i][x].base
  }

  /** The base rows whose indexed columns satisfy `p`. */
  ghost function Filtered(sch: Schema, t: Table, i: nat, p: Key -> bool): set<nat>
    requires Shaped(sch, t) && i < |t.index|
  {
    set r | r in t.rows && p(Picked(t.cols[r], sch.indexes[i]))
  }

  /** Every query of an index is a filter of the base table, and each row is found through one entry only. */
  lemma QueryFilters(sch: Schema, t: Table, i: nat, p: Key -> bool)
    requires Consistent(sch, t) && i < |t.index|
    ensures Found(t, i, p) == Filtered(sch, t, i, p)
    ensures forall x, y :: x in t.index[i] && y in t.index[i] && t.index[i][x].base == t.index[i][y].base ==> x == y
  {
    forall r
      ensures r in Found(t, i, p) <==> r in Filtered(sch, t, i, p)
    {
      if r in Found(t, i, p) {
        var x :| x in t.index[i] && p(t.index[i][x].key) && t.index[i][x].base == r;
        assert Backed(t, i, x) && EntryOk(sch, t, r, i);
      }
      if r in Filtered(sch, t, i, p) {
        assert EntryOk(sch, t, r, i);
        assert t.index[i][t.master[r][i].value].base in Found(t, i, p);
      }
    }
    forall x, y | x in t.index[i] && y in t.index[i] && t.index[i][x].base == t.index[i][y].base
      ensures x == y
    {
      assert Backed(t, i, x) && Backed(t, i, y);
    }
  }
}
