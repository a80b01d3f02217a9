/** The staging area of `Txn2PL` and its commit (rococo-dst/memdb/txn.cc:539-589, 640-790, 936-1092). */
module OwnView {
  import opened Seqs
  import opened Options
  import opened IndexSpec
  import opened KeyOrder
  import opened StagedOrder
  import opened OwnViewSpec
  import opened OwnViewProof
  import opened MergedView
  import opened MergeOrder

  /** Replacing at the first match, or adding when there is none, is `Put`. */
  lemma {:induction false} PutAt(us: seq<(nat, Value)>, c: nat, v: Value, k: nat)
    requires k <= |us| && forall i :: 0 <= i < k ==> us[i].0 != c
    requires k < |us| ==> us[k].0 == c
    ensures Put(us, c, v) == if k < |us| then us[k := (c, v)] else us + [(c, v)]
  {
    if us != [] && k > 0 {
      PutAt(us[1..], c, v, k - 1);
    }
  }

  lemma {:induction false} FindAt(us: seq<(nat, Value)>, c: nat, k: nat)
    requires k <= |us| && forall i :: 0 <= i < k ==> us[i].0 != c
    requires k < |us| ==> us[k].0 == c
    ensures Find(us, c) == if k < |us| then Some(us[k].1) else None
  {
    if us != [] && k > 0 {
      FindAt(us[1..], c, k - 1);
    }
  }

  ghost predicate InColumns(cols: seq<Value>, us: seq<(nat, Value)>) {
    forall i :: 0 <= i < |us| ==> us[i].0 < |cols|
  }

  /** A row's columns with the updates `us` made in order. */
  ghost function Applied(cols: seq<Value>, us: seq<(nat, Value)>): (r: seq<Value>)
    requires InColumns(cols, us)
    ensures |r| == |cols|
  {
    if us == [] then cols
    else Applied(cols, us[..|us| - 1])[us[|us| - 1].0 := us[|us| - 1].1]
  }

  /** With one update a column, the order does not matter. */
  lemma {:induction false} AppliedColumn(cols: seq<Value>, us: seq<(nat, Value)>, c: nat)
    requires ColumnsOnce(us) && c < |cols| && InColumns(cols, us)
    ensures Applied(cols, us)[c] == if Find(us, c).Some? then Find(us, c).value else cols[c]
  {
    if us == [] {
    } else {
      var last := |us| - 1;
      AppliedColumn(cols, us[..last], c);
      var k := ColumnAt(us, c);
      FindAt(us, c, k);
      FindAt(us[..last], c, if k <= last then k else last);
    }
  }

  ghost function ColumnAt(us: seq<(nat, Value)>, c: nat): (k: nat)
    ensures k <= |us| && (forall i :: 0 <= i < k ==> us[i].0 != c) && (k < |us| ==> us[k].0 == c)
  {
    if us == [] || us[0].0 == c then 0 else 1 + ColumnAt(us[1..], c)
  }

  lemma UpperBoundIs(ps: seq<Pair>, n: Pair, k: nat)
    requires k <= |ps| && (k < |ps| ==> LessPair(n, ps[k])) && forall i :: 0 <= i < k ==> !LessPair(n, ps[i])
    ensures k == UpperBound(ps, n)
  {
  }

  /** The row to remove, if staged, is among the staged rows with its key. */
  lemma SweepFinds(s: State, t: nat, r: nat)
    requires Inv(s) && Shapely(s, t, r)
    ensures var k := StagedAt(s.inserts, t, r); var n := Pair(t, RowKey(KeyIn(s, t, r)));
      && (k < |s.inserts| ==> LowerBound(Pairs(s), n) <= k < UpperBound(Pairs(s), n))
      && forall i :: 0 <= i < |s.inserts| && s.inserts[i].row == r && s.inserts[i].table == t ==> i == k
  {
    hide Ordered, RowFits, Sound, KeyOf, UpdatesOk, Homed, RemovesOk, LowerBound, UpperBound, LessPair;
    var k := StagedAt(s.inserts, t, r);
    var n := Pair(t, RowKey(KeyIn(s, t, r)));
    if k < |s.inserts| {
      AllPairsFit(s);
      KeyFits(s, t, r);
      assert Pairs(s)[k] == n;
      BoundsSplit(Protos(s), Pairs(s), n, k);
      PairOrder(Protos(s), n, n, n);
    }
  }

  method ApplyInserts(home: map<nat, nat>, inserts: seq<Staged>) returns (home': map<nat, nat>)
    requires StagedOnce(inserts) && forall i :: 0 <= i < |inserts| ==> inserts[i].row !in home
    ensures forall t, r :: InTable(home', t, r) <==> InTable(home, t, r) || Staged(t, r) in inserts
  {
    home' := home;
    for i := 0 to |inserts|
      invariant forall j :: i <= j < |inserts| ==> inserts[j].row !in home'
      invariant forall t, r :: InTable(home', t, r) <==> InTable(home, t, r) || Staged(t, r) in inserts[..i]
    {
      assert inserts[..i + 1] == inserts[..i] + [inserts[i]];
      home' := home'[inserts[i].row := inserts[i].table];
    }
    assert inserts[..|inserts|] == inserts;
  }

  method ApplyRow(cols: seq<Value>, us: seq<(nat, Value)>) returns (cols': seq<Value>)
    requires InColumns(cols, us)
    ensures cols' == Applied(cols, us)
  {
    cols' := cols;
    for i := 0 to |us|
      invariant cols' == Applied(cols, us[..i])
    {
      assert us[..i + 1][..i] == us[..i];
      cols' := cols'[us[i].0 := us[i].1];
    }
    assert us[..|us|] == us;
  }

  method ApplyUpdates(data: map<nat, seq<Value>>, updates: map<nat, seq<(nat, Value)>>)
    returns (data': map<nat, seq<Value>>)
    requires forall r :: r in updates ==> r in data && InColumns(data[r], updates[r])
    ensures data'.Keys == data.Keys
    ensures forall r :: r in data ==> data'[r] == if r in updates then Applied(data[r], updates[r]) else data[r]
  {
    data' := data;
    var todo := updates.Keys;
    while todo != {}
      invariant todo <= updates.Keys && data'.Keys == data.Keys
      invariant forall r :: r in data ==>
        data'[r] == if r in updates && r !in todo then Applied(data[r], updates[r]) else data[r]
    {
      var r :| r in todo;
      var cols := ApplyRow(data'[r], updates[r]);
      data' := data'[r := cols];
      todo := todo - {r};
    }
  }

  method ApplyRemoves(home: map<nat, nat>, removes: set<(nat, nat)>) returns (home': map<nat, nat>)
    requires forall p :: p in removes ==> p.1 in home && home[p.1] == p.0
    ensures forall r :: r in home' <==> r in home && (home[r], r) !in removes
    ensures forall r :: r in home' ==> home'[r] == home[r]
  {
    home' := home;
    var todo := removes;
    while todo != {}
      invariant todo <= removes
      invariant forall r :: r in home' <==> r in home && (home[r], r) !in removes - todo
      invariant forall r :: r in home' ==> home'[r] == home[r]
    {
      var p :| p in todo;
      home' := home' - {p.1};
      todo := todo - {p};
    }
  }

  /** Inserts, then updates, then removes: what the transaction saw. */
  lemma CommitAgrees(s: State, home1: map<nat, nat>, d: Db)
    requires Inv(s) && d.data.Keys == s.db.data.Keys
    requires forall t, r :: InTable(home1, t, r) <==> InTable(s.db.home, t, r) || Staged(t, r) in s.inserts
    requires forall r :: r in d.home <==> r in home1 && (home1[r], r) !in s.removes
    requires forall r :: r in d.home ==> d.home[r] == home1[r]
    requires forall r :: r in s.updates ==> r in s.db.data && InColumns(s.db.data[r], s.updates[r])
    requires forall r :: r in s.db.data ==>
      d.data[r] == if r in s.updates then Applied(s.db.data[r], s.updates[r]) else s.db.data[r]
    ensures Agrees(s, d)
  {
    hide Ordered, RowFits, Sound, AllValuesFit, Find, StagedOnce;
    forall t, r
      ensures Member(s, t, r) <==> InTable(d.home, t, r)
    {
      if Staged(t, r) in s.inserts {
        StagedNotRemoved(s, t, r);
      }
    }
    forall r | r in d.data
      ensures d.data[r] == SeenRow(s, r)
    {
      UpdatesSeen(s, r);
    }
  }

  lemma StagedNotRemoved(s: State, t: nat, r: nat)
    requires Inv(s) && Staged(t, r) in s.inserts
    ensures (t, r) !in s.removes && r !in s.db.home
  {
    hide Ordered, RowFits, Sound, UpdatesOk, Shapely;
    var i :| 0 <= i < |s.inserts| && s.inserts[i] == Staged(t, r);
  }

  lemma UpdatesSeen(s: State, r: nat)
    requires Inv(s) && r in s.db.data && (r in s.updates ==> InColumns(s.db.data[r], s.updates[r]))
    ensures SeenRow(s, r) == if r in s.updates then Applied(s.db.data[r], s.updates[r]) else s.db.data[r]
  {
    hide Ordered, RowFits, Sound, AllValuesFit, Find, StagedOnce, StagedShapely;
    forall c | 0 <= c < |s.db.data[r]|
      ensures r in s.updates ==> Seen(s, r, c) == Applied(s.db.data[r], s.updates[r])[c]
    {
      if r in s.updates {
        AppliedColumn(s.db.data[r], s.updates[r], c);
      }
    }
  }

  lemma SliceOpen(s: State, t: nat, range: Range)
    requires Inv(s) && t in s.schemas && Sound(s.schemas[t])
    requires RangeFits(range, Picked(s.schemas[t].kinds, s.schemas[t].keyCols))
    ensures SliceBegin(Pairs(s), t, range) <= SliceEnd(Pairs(s), t, range) <= |s.inserts|
  {
    AllPairsFit(s);
    SliceForward(Protos(s), Pairs(s), t, range);
  }

  /** The staged rows a query of table `t` looks at. */
  function StagedSlice(s: State, t: nat, range: Range): (rows: seq<nat>)
    requires Inv(s) && t in s.schemas && Sound(s.schemas[t])
    requires RangeFits(range, Picked(s.schemas[t].kinds, s.schemas[t].keyCols))
  {
    var b, e := SliceBegin(Pairs(s), t, range), SliceEnd(Pairs(s), t, range);
    SliceOpen(s, t, range);
    seq(e - b, i requires 0 <= i < e - b => s.inserts[b + i].row)
  }

  lemma SliceIndex(s: State, t: nat, range: Range, i: nat)
    requires Inv(s) && t in s.schemas && Sound(s.schemas[t]) && i < |s.inserts|
    requires RangeFits(range, Picked(s.schemas[t].kinds, s.schemas[t].keyCols))
    ensures SliceBegin(Pairs(s), t, range) <= i < SliceEnd(Pairs(s), t, range) <==>
      s.inserts[i].table == t && InView(s, t, range, s.inserts[i].row)
  {
    hide Ordered, RowFits, SameKinds, KeyOf, UpdatesOk, Homed, RemovesOk;
    hide InRange, LessPair, SliceBegin, SliceEnd, Picked;
    AllPairsFit(s);
    SliceExact(Protos(s), Pairs(s), t, range, i);
    assert Staged(s.inserts[i].table, s.inserts[i].row) == s.inserts[i];
  }

  /** Each staged row of the table with a key in range is in the slice once. */
  lemma SliceRows(s: State, t: nat, range: Range, r: nat)
    requires Inv(s) && t in s.schemas && Sound(s.schemas[t])
    requires RangeFits(range, Picked(s.schemas[t].kinds, s.schemas[t].keyCols))
    ensures NoDup(StagedSlice(s, t, range))
    ensures r in StagedSlice(s, t, range) <==> Staged(t, r) in s.inserts && InView(s, t, range, r)
  {
    hide Ordered, Shapely, PairAt, UpdatesOk, Homed, RemovesOk, InView, SliceBegin, SliceEnd, Picked, RangeFits;
    var rows := StagedSlice(s, t, range);
    var b, e := SliceBegin(Pairs(s), t, range), SliceEnd(Pairs(s), t, range);
    SliceOpen(s, t, range);
    if r in rows {
      var i :| 0 <= i < |rows| && rows[i] == r;
      SliceIndex(s, t, range, b + i);
      assert s.inserts[b + i] == Staged(t, r);
    }
    if Staged(t, r) in s.inserts && InView(s, t, range, r) {
      var i :| 0 <= i < |s.inserts| && s.inserts[i] == Staged(t, r);
      SliceIndex(s, t, range, i);
      assert rows[i - b] == r;
    }
  }

  /** The staged rows of a query come in key order. */
  lemma SliceInOrder(s: State, t: nat, range: Range)
    requires Inv(s) && t in s.schemas && Sound(s.schemas[t])
    requires RangeFits(range, Picked(s.schemas[t].kinds, s.schemas[t].keyCols))
    ensures InOrder(Order(KeysIn(s, t), false), StagedSlice(s, t, range))
  {
    hide UpdatesOk, Homed, RemovesOk, InView, SliceBegin, SliceEnd, Picked, RangeFits, KeyOf, KeyLess, RowFits;
    var rows, ps := StagedSlice(s, t, range), Pairs(s);
    var b := SliceBegin(ps, t, range);
    SliceOpen(s, t, range);
    forall i, j | 0 <= i < j < |rows|
      ensures !Before(Order(KeysIn(s, t), false), rows[j], rows[i])
    {
      SliceIndex(s, t, range, b + i);
      SliceIndex(s, t, range, b + j);
      assert !LessPair(ps[b + j], ps[b + i]);
    }
  }

  lemma KeysOfOneKind(s: State, t: nat, back: bool)
    requires t in s.schemas && Sound(s.schemas[t])
    ensures OneKind(Order(KeysIn(s, t), back), Picked(s.schemas[t].kinds, s.schemas[t].keyCols))
  {
  }

  /** `listing` has the table's own rows with a key in range, once each. */
  ghost predicate Lists(s: State, t: nat, range: Range, listing: seq<nat>) {
    && NoDup(listing)
    && forall r :: r in listing <==> InTable(s.db.home, t, r) && Shapely(s, t, r) && InRange(range, KeyIn(s, t, r))
  }

  /** What a merged cursor over `listing` and the staged slice gives: each row in view once, and no other. */
  lemma EachOnce(s: State, t: nat, range: Range, listing: seq<nat>, staged: seq<nat>, out: seq<nat>, r: nat)
    requires Inv(s) && t in s.schemas && Sound(s.schemas[t])
    requires RangeFits(range, Picked(s.schemas[t].kinds, s.schemas[t].keyCols))
    requires Lists(s, t, range, listing) && multiset(staged) == multiset(StagedSlice(s, t, range))
    requires Interleaves(out, Kept(listing, t, s.removes), staged)
    ensures multiset(out)[r] == if InView(s, t, range, r) then 1 else 0
  {
    hide Ordered, RowFits, SameKinds, KeyOf, UpdatesOk, Homed, InRange, StagedSlice, Interleaves, Kept, Picked;
    InterleavedCounts(out, Kept(listing, t, s.removes), staged);
    KeptExact(listing, t, s.removes, r);
    DistinctCount(listing, r);
    SliceRows(s, t, range, r);
    DistinctCount(StagedSlice(s, t, range), r);
    if Staged(t, r) in s.inserts {
      StagedNotRemoved(s, t, r);
    }
  }

  lemma NoneInOrder(o: Order)
    ensures InOrder(o, [])
  {
  }

  lemma Squeezed(s: seq<nat>, k: nat, r: nat)
    requires NoDup(s) && r !in s && k <= |s|
    ensures NoDup(s[..k] + [r] + s[k..]) && forall x :: x in s[..k] + [r] + s[k..] <==> x in s || x == r
  {
    var t := s[..k] + [r] + s[k..];
    assert s == s[..k] + s[k..];
    assert t[k] == r;
    assert forall i :: 0 <= i < |t| && i != k ==> t[i] == s[if i < k then i else i - 1];
  }

  class Txn2PL {
    const schemas: map<nat, TableSchema>
    var db: Db
    var updates: map<nat, seq<(nat, Value)>>
    var inserts: seq<Staged>
    var removes: set<(nat, nat)>

    function St(): State
      reads this
    {
      State(schemas, db, updates, inserts, removes)
    }

    ghost predicate Valid()
      reads this
    {
      Inv(St())
    }

    constructor (schemas: map<nat, TableSchema>, db: Db)
      requires Homed(Started(schemas, db))
      ensures Valid() && St() == Started(schemas, db)
    {
      this.schemas, this.db, updates, inserts, removes := schemas, db, map[], [], {};
      StartAgrees(schemas, db);
    }

    method ReadColumn(r: nat, c: nat) returns (v: Value)
      requires Valid() && r in db.data && c < |db.data[r]| && !Removed(St(), r)
      ensures v == Seen(St(), r, c)
    {
      hide Inv;
      if r !in db.home {
        return db.data[r][c];
      }
      if r in updates {
        var us := updates[r];
        for k := 0 to |us|
          invariant forall i :: 0 <= i < k ==> us[i].0 != c
        {
          if us[k].0 == c {
            FindAt(us, c, k);
            return us[k].1;
          }
        }
        FindAt(us, c, |us|);
      }
      v := db.data[r][c];
    }

    method WriteColumn(r: nat, c: nat, v: Value)
      requires Valid() && Writable(St(), r, c, v)
      modifies this
      ensures St() == Wrote(old(St()), r, c, v)
      ensures Valid() <==> KeepsOrder(old(St()), r, c, v)
    {
      hide Inv, Put, KeepsOrder;
      WriteExact(St(), r, c, v);
      if r !in db.home {
        db := db.(data := db.data[r := db.data[r][c := v]]);
        return;
      }
      var us := if r in updates then updates[r] else [];
      for k := 0 to |us|
        invariant forall i :: 0 <= i < k ==> us[i].0 != c
        invariant St() == old(St())
      {
        if us[k].0 == c {
          PutAt(us, c, v, k);
          updates := updates[r := us[k := (c, v)]];
          return;
        }
      }
      PutAt(us, c, v, |us|);
      updates := updates[r := us + [(c, v)]];
    }

    method InsertRow(t: nat, r: nat)
      requires Valid() && Legal(St(), Insert(t, r))
      modifies this
      ensures Valid() && St() == Inserted(old(St()), t, r)
    {
      hide Ordered, UpperBound, UpdatesOk, Homed, RemovesOk, LessPair, KeyIn;
      InsertInv(St(), t, r);
      var n := Pair(t, RowKey(KeyIn(St(), t, r)));
      var ps := Pairs(St());
      var k := 0;
      while k < |inserts| && !LessPair(n, ps[k])
        invariant k <= |inserts|
        invariant forall i :: 0 <= i < k ==> !LessPair(n, ps[i])
      {
        k := k + 1;
      }
      UpperBoundIs(ps, n, k);
      inserts := inserts[..k] + [Staged(t, r)] + inserts[k..];
      removes := removes - {(t, r)};
    }

    method RemoveRow(t: nat, r: nat)
      requires Valid() && Legal(St(), Remove(t, r))
      modifies this
      ensures Valid() && St() == RemovedRow(old(St()), t, r)
    {
      hide Inv, LowerBound, UpperBound, Pairs, KeyIn, StagedAt;
      ghost var s := St();
      MemberShapely(s, t, r);
      RemoveInv(s, t, r);
      SweepFinds(s, t, r);
      assert StagedShapely(s) by { InvStaged(s); }
      var n := Pair(t, RowKey(KeyIn(St(), t, r)));
      var it, end := LowerBound(Pairs(St()), n), UpperBound(Pairs(St()), n);
      ghost var begin := it;
      while it < end && inserts[it] != Staged(t, r)
        invariant begin <= it && (it <= end || it == begin)
        invariant forall i :: begin <= i < it ==> inserts[i] != Staged(t, r)
      {
        it := it + 1;
      }
      if it >= end {
        removes := removes + {(t, r)};
      } else {
        inserts := inserts[..it] + inserts[it + 1..];
      }
      updates := updates - {r};
    }

    /**
     * The table's own rows with a key in range: in the order asked for from a sorted table, in any from a hash table.
     */
    method ListTable(t: nat, range: Range, sorted: bool, reverse: bool) returns (listing: seq<nat>)
      requires Valid() && t in schemas && Sound(schemas[t])
      ensures Lists(St(), t, range, listing)
      ensures sorted ==> InOrder(Order(KeysIn(St(), t), reverse), listing)
    {
      hide Ordered, UpdatesOk, StagedShapely, StagedOnce, RemovesOk, RowFits, InRange, KeyOf, InOrder, OneKind, KeysIn;
      var o := Order(KeysIn(St(), t), reverse);
      KeysOfOneKind(St(), t, reverse);
      listing := [];
      assert InOrder(o, []) by { NoneInOrder(o); }
      var todo := db.home.Keys;
      while todo != {}
        invariant todo <= db.home.Keys && NoDup(listing) && forall r :: r in listing ==> r !in todo
        invariant forall r :: r in listing <==>
          r !in todo && InTable(db.home, t, r) && Shapely(St(), t, r) && InRange(range, KeyIn(St(), t, r))
        invariant sorted ==> InOrder(o, listing)
      {
        var r :| r in todo;
        assert Shapely(St(), db.home[r], r);
        if db.home[r] == t && InRange(range, KeyIn(St(), t, r)) {
          var k := |listing|;
          if sorted {
            k := PlaceFor(o, listing, r, Picked(schemas[t].kinds, schemas[t].keyCols));
          }
          Squeezed(listing, k, r);
          listing := listing[..k] + [r] + listing[k..];
        }
        todo := todo - {r};
      }
    }

    /**
     * The queries and the scan of a sorted table or a hash table.  The rows of a sorted table come in the order asked
     * for if and only if the addresses of its own rows and of the staged ones fit.
     */
    method Query(t: nat, range: Range, sorted: bool, reverse: bool)
      returns (cursor: MergedCursor, ghost listing: seq<nat>, ghost staged: seq<nat>)
      requires Valid() && t in schemas && Sound(schemas[t])
      requires RangeFits(range, Picked(schemas[t].kinds, schemas[t].keyCols))
      ensures fresh(cursor) && cursor.Valid()
      ensures forall r :: multiset(cursor.Remaining())[r] == if InView(St(), t, range, r) then 1 else 0
      ensures Lists(St(), t, range, listing)
      ensures staged == if reverse then Reverse(StagedSlice(St(), t, range)) else StagedSlice(St(), t, range)
      ensures cursor.Remaining() == Merge(Kept(listing, t, removes), staged)
      ensures Interleaves(cursor.Remaining(), Kept(listing, t, removes), staged)
      ensures sorted ==>
        var o := Order(KeysIn(St(), t), reverse);
        && InOrder(o, listing) && InOrder(o, staged)
        && (InOrder(o, cursor.Remaining()) <==> AddressesFit(o, Kept(listing, t, removes), staged))
    {
      hide Inv, StagedSlice, Interleaves, Kept, InView, Lists, RangeFits, InOrder, AddressesFit, Merge, KeysIn;
      var rows := ListTable(t, range, sorted, reverse);
      listing := rows;
      var slice := StagedSlice(St(), t, range);
      cursor := new MergedCursor(t, rows, slice, reverse, removes);
      staged := if reverse then Reverse(slice) else slice;
      ReverseCounts(slice);
      MergeInterleaves(Kept(listing, t, removes), staged);
      forall r
        ensures multiset(cursor.Remaining())[r] == if InView(St(), t, range, r) then 1 else 0
      {
        EachOnce(St(), t, range, listing, staged, cursor.Remaining(), r);
      }
      if sorted {
        var o := Order(KeysIn(St(), t), reverse);
        SliceInOrder(St(), t, range);
        if reverse {
          ReverseInOrder(KeysIn(St(), t), slice);
        }
        KeptInOrder(o, listing, t, removes);
        MergeInOrder(o, Kept(listing, t, removes), staged);
      }
    }

    method Commit()
      requires Valid()
      modifies this
      ensures Valid() && Agrees(old(St()), db)
      ensures forall r :: r in db.data && Removed(old(St()), r) ==> db.data[r] == old(db.data)[r]
      ensures updates == map[] && inserts == [] && removes == {}
    {
      hide Ordered, RowFits, Sound, AllValuesFit, ColumnsOnce, SeenRow;
      ghost var s := St();
      CommitReady(s);
      var home1 := ApplyInserts(db.home, inserts);
      var data1 := ApplyUpdates(db.data, updates);
      assert forall p :: p in removes ==> InTable(s.db.home, p.0, p.1);
      assert forall p :: p in removes ==> InTable(home1, p.0, p.1);
      var home2 := ApplyRemoves(home1, removes);
      CommitAgrees(s, home1, Db(home2, data1));
      CommitHomed(s, Db(home2, data1));
      db := Db(home2, data1);
      updates, inserts, removes := map[], [], {};
      StartAgrees(schemas, db);
    }

    method Abort()
      requires Valid()
      modifies this
      ensures Valid() && db == old(db)
      ensures updates == map[] && inserts == [] && removes == {}
    {
      updates, inserts, removes := map[], [], {};
      SameHomed(old(St()), Started(schemas, db));
      StartAgrees(schemas, db);
    }
  }

  lemma SameHomed(s: State, s': State)
    requires Homed(s) && s'.schemas == s.schemas && s'.db == s.db
    ensures Homed(s')
  {
    forall r | r in s.db.home
      ensures Shapely(s', s.db.home[r], r)
    {
      assert Shapely(s, s.db.home[r], r);
    }
  }

  lemma CommitReady(s: State)
    requires Inv(s)
    ensures forall i :: 0 <= i < |s.inserts| ==> s.inserts[i].row !in s.db.home
    ensures forall r :: r in s.updates ==> r in s.db.data && InColumns(s.db.data[r], s.updates[r])
  {
    hide Ordered, ColumnsOnce;
    forall r | r in s.updates
      ensures r in s.db.data && InColumns(s.db.data[r], s.updates[r])
    {
      assert Shapely(s, s.db.home[r], r);
    }
  }

  /** The rows of the committed tables have their tables' columns. */
  lemma CommitHomed(s: State, d: Db)
    requires Inv(s) && Agrees(s, d)
    ensures Homed(Started(s.schemas, d))
  {
    hide Inv, Member, SeenRow, RowFits;
    forall r | r in d.home
      ensures Shapely(Started(s.schemas, d), d.home[r], r)
    {
      assert InTable(d.home, d.home[r], r);
      MemberShapely(s, d.home[r], r);
      SeenFits(s, d.home[r], r);
    }
  }

  lemma InvStaged(s: State)
    requires Inv(s)
    ensures StagedShapely(s)
  {
  }

  // ---- A query whose rows come out of order

  /** Row 9 is in table 0 with key 1, row 4 is staged for it with key 2. */
  function TwoRows(inserts: seq<Staged>): State {
    State(map[0 := TableSchema([0], [Num(0)])], Db(map[9 := 0], map[9 := [Num(1)], 4 := [Num(2)]]), map[], inserts, {})
  }

  lemma TwoRowsKeys(inserts: seq<Staged>)
    ensures Shapely(TwoRows(inserts), 0, 9) && Shapely(TwoRows(inserts), 0, 4)
    ensures KeyIn(TwoRows(inserts), 0, 9) == [Num(1)] && KeyIn(TwoRows(inserts), 0, 4) == [Num(2)]
    ensures Before(Order(KeysIn(TwoRows(inserts), 0), false), 9, 4)
  {
    var s := TwoRows(inserts);
    assert KeyIn(s, 0, 9) == [Num(1)] && KeyIn(s, 0, 4) == [Num(2)];
    assert CmpValue([Num(1)][0], [Num(2)][0]) == -1;
    assert KeyLess([Num(1)], [Num(2)]);
  }

  lemma TwoRowsLists(listing: seq<nat>, slice: seq<nat>)
    requires Inv(TwoRows([Staged(0, 4)])) && Lists(TwoRows([Staged(0, 4)]), 0, All, listing)
    requires slice == StagedSlice(TwoRows([Staged(0, 4)]), 0, All)
    ensures listing == [9] && slice == [4]
  {
    hide Inv, StagedSlice, KeyOf;
    var s := TwoRows([Staged(0, 4)]);
    TwoRowsKeys([Staged(0, 4)]);
    forall r
      ensures r in listing <==> r == 9
      ensures r in slice <==> r == 4
    {
      SliceRows(s, 0, All, r);
      assert s.inserts[0] == Staged(0, 4);
    }
    SliceRows(s, 0, All, 4);
    OnlyOne(listing, 9);
    OnlyOne(slice, 4);
  }

  lemma {:induction false} AllSame(s: seq<nat>, x: nat)
    requires forall i :: 0 <= i < |s| ==> s[i] == x
    ensures multiset(s)[x] == |s|
  {
    if s != [] {
      AllSame(s[1..], x);
      assert s == [s[0]] + s[1..];
    }
  }

  lemma OnlyOne(s: seq<nat>, x: nat)
    requires NoDup(s) && forall y :: y in s <==> y == x
    ensures s == [x]
  {
    assert x in s;
    forall i | 0 <= i < |s|
      ensures s[i] == x
    {
      assert s[i] in s;
    }
    DistinctCount(s, x);
    AllSame(s, x);
  }

  lemma TwoRowsStart()
    ensures Homed(TwoRows([])) && Inv(TwoRows([]))
    ensures Started(TwoRows([]).schemas, TwoRows([]).db) == TwoRows([])
  {
    hide Inv, Shapely, Agrees;
    TwoRowsKeys([]);
    StartAgrees(TwoRows([]).schemas, TwoRows([]).db);
  }

  lemma FirstInsert(s: State, t: nat, r: nat)
    requires Inv(s) && Legal(s, Insert(t, r)) && s.inserts == [] && s.removes == {}
    ensures Inserted(s, t, r) == s.(inserts := [Staged(t, r)])
  {
    hide Inv, Shapely, KeyIn, UpperBound;
    var k := UpperBound(Pairs(s), Pair(t, RowKey(KeyIn(s, t, r))));
    assert k == 0;
    assert s.inserts[..0] == [] && s.inserts[0..] == [];
    assert s.removes - {(t, r)} == {};
  }

  lemma TwoRowsInsert()
    requires Inv(TwoRows([]))
    ensures Legal(TwoRows([]), Insert(0, 4)) && Inserted(TwoRows([]), 0, 4) == TwoRows([Staged(0, 4)])
  {
    hide Inv, Shapely, Inserted, Writable, KeepsOrder, Member;
    TwoRowsKeys([]);
    FirstInsert(TwoRows([]), 0, 4);
  }

  lemma TwoRowsMerged()
    ensures Merge(Kept([9], 0, {}), [4]) == [4, 9]
    ensures !InOrder(Order(KeysIn(TwoRows([Staged(0, 4)]), 0), false), [4, 9])
  {
    hide Before, KeysIn;
    TwoRowsKeys([Staged(0, 4)]);
    assert [9][1..] == [] && [4][1..] == [];
    assert Kept([9], 0, {}) == [9];
    assert Merge([9], [4]) == [4] + Merge([9], [4][1..]);
    var out := [4, 9];
    assert out[0] == 4 && out[1] == 9;
  }

  /**
   * An ascending scan gives the staged row first, since it lies at the smaller address, although its key is the
   * greater.
   */
  method AddressBeatsKey() returns (txn: Txn2PL, cursor: MergedCursor)
    ensures txn.Valid() && cursor.Valid() && cursor.Remaining() == [4, 9]
    ensures !InOrder(Order(KeysIn(txn.St(), 0), false), cursor.Remaining())
  {
    hide Inv, Legal, Inserted, Homed, StagedSlice, Lists, AddressesFit;
    hide Interleaves, InView, KeysIn, InOrder, Merge, Kept;
    var s := TwoRows([]);
    TwoRowsStart();
    TwoRowsInsert();
    TwoRowsMerged();
    txn := new Txn2PL(s.schemas, s.db);
    txn.InsertRow(0, 4);
    ghost var listing, staged;
    cursor, listing, staged := txn.Query(0, All, true, false);
    TwoRowsLists(listing, staged);
  }
}
