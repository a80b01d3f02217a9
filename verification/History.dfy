/** What a transaction did, column by column, and what it means to run it alone. */
module History {
  import opened Options
  import opened OccSite

  datatype Loc = Loc(site: nat, cell: Cell)

  datatype Op = R(loc: Loc, v: Value) | W(loc: Loc, v: Value)

  type Table = map<Loc, Value>

  /** One operation, run alone: a read must return what the table holds. */
  function Do(f: Table, op: Op): Option<Table> {
    match op
    case R(loc, v) => if loc in f && f[loc] == v then Some(f) else None
    case W(loc, v) => if loc in f then Some(f[loc := v]) else None
  }

  /** All operations of a transaction, run alone; none when a read would have returned something else. */
  function Replay(f: Table, ops: seq<Op>): Option<Table> {
    if ops == [] then Some(f)
    else
      match Replay(f, ops[..|ops| - 1])
      case None => None
      case Some(g) => Do(g, ops[|ops| - 1])
  }

  /** The last value the transaction wrote to each place. */
  function Staged(ops: seq<Op>): map<Loc, Value> {
    if ops == [] then map[]
    else
      var before, op := Staged(ops[..|ops| - 1]), ops[|ops| - 1];
      if op.W? then before[op.loc := op.v] else before
  }

  /** The places it read without having written them first. */
  function TableReads(ops: seq<Op>): set<Loc> {
    if ops == [] then {}
    else
      var before, op := TableReads(ops[..|ops| - 1]), ops[|ops| - 1];
      if op.R? && op.loc !in Staged(ops[..|ops| - 1]) then before + {op.loc} else before
  }

  /** Every read returned the transaction's own last write, or what `f` holds. */
  predicate ReadsMatch(ops: seq<Op>, f: Table) {
    ops == [] ||
    (var before, op := ops[..|ops| - 1], ops[|ops| - 1];
     ReadsMatch(before, f) && (op.R? ==> SeenIn(op, Staged(before), f)))
  }

  predicate SeenIn(op: Op, own: map<Loc, Value>, f: Table) {
    if op.loc in own then own[op.loc] == op.v else op.loc in f && f[op.loc] == op.v
  }

  predicate Within(ops: seq<Op>, f: Table) {
    forall i :: 0 <= i < |ops| ==> ops[i].loc in f
  }

  function Overlay(f: Table, u: map<Loc, Value>): Table {
    map loc | loc in f :: if loc in u then u[loc] else f[loc]
  }

  /** If its reads match the table, a transaction runs alone on it, and leaves its staged writes. */
  lemma {:induction false} ReplayFits(f: Table, ops: seq<Op>)
    requires ReadsMatch(ops, f) && Within(ops, f)
    ensures Replay(f, ops) == Some(Overlay(f, Staged(ops)))
  {
    if ops == [] {
      assert Overlay(f, map[]) == f;
    } else {
      var before, op := ops[..|ops| - 1], ops[|ops| - 1];
      ReplayFits(f, before);
      if op.W? {
        assert Overlay(f, Staged(before))[op.loc := op.v] == Overlay(f, Staged(ops));
      }
    }
  }

  /** Only the places read from the table matter to whether the reads match. */
  lemma {:induction false} SameReads(ops: seq<Op>, f: Table, g: Table)
    requires ReadsMatch(ops, f) && forall loc :: loc in TableReads(ops) && loc in f ==> loc in g && g[loc] == f[loc]
    ensures ReadsMatch(ops, g)
  {
    if ops != [] {
      SameReads(ops[..|ops| - 1], f, g);
    }
  }

  /** Every place a transaction read or staged is the place of one of its operations. */
  lemma {:induction false} Touched(ops: seq<Op>, f: Table)
    requires Within(ops, f)
    ensures TableReads(ops) <= f.Keys && Staged(ops).Keys <= f.Keys
  {
    if ops != [] {
      Touched(ops[..|ops| - 1], f);
    }
  }

  ghost predicate AtSites(ops: seq<Op>, sites: set<nat>) {
    forall i :: 0 <= i < |ops| ==> ops[i].loc.site in sites
  }

  lemma {:induction false} TouchedSites(ops: seq<Op>, sites: set<nat>)
    requires AtSites(ops, sites)
    ensures forall loc :: loc in TableReads(ops) ==> loc.site in sites
    ensures forall loc :: loc in Staged(ops) ==> loc.site in sites
  {
    if ops != [] {
      TouchedSites(ops[..|ops| - 1], sites);
    }
  }

  lemma OneMore(ops: seq<Op>, op: Op, f: Table)
    ensures Staged(ops + [op]) == if op.W? then Staged(ops)[op.loc := op.v] else Staged(ops)
    ensures TableReads(ops + [op]) ==
      if op.R? && op.loc !in Staged(ops) then TableReads(ops) + {op.loc} else TableReads(ops)
    ensures ReadsMatch(ops + [op], f) <==> ReadsMatch(ops, f) && (op.R? ==> SeenIn(op, Staged(ops), f))
  {
    assert (ops + [op])[..|ops|] == ops;
  }
}
