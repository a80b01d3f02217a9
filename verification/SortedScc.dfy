/**
 `sorted_scc` on a graph of vertex addresses. Sets and edge maps are walked in an arbitrary
 order, so what is proved holds for every iteration order and every placement in memory.
 */
module SortedScc {
  import opened DepGraph
  import opened Seqs
  import opened Tarjan
  import opened Options
  import opened Sorting
  import opened SortedSccSpec

  /** A dependency graph over addresses, with the transaction id of each vertex. */
  datatype TxnGraph<V(==)> = TxnGraph(g: Graph<V>, id: map<V, nat>)

  ghost predicate ValidTxn<V(!new)>(t: TxnGraph<V>) {
    && DepGraph.Valid(t.g) && t.id.Keys == t.g.succs.Keys
    && forall u, v :: u in t.id && v in t.id && t.id[u] == t.id[v] ==> u == v
  }

  /** The relation is RW or WR: 2 or more as a signed byte. */
  predicate Immediate(relation: bv8) {
    2 <= relation < 0x80
  }

  /** A byte read as a signed number. */
  function Signed(relation: bv8): int {
    if relation < 0x80 then relation as int else relation as int - 256
  }

  const EDGE_D: bv8 := 1
  const EDGE_I: bv8 := 2
  const WR: bv8 := 4

  lemma ImmediateSigned(relation: bv8)
    ensures Immediate(relation) <==> Signed(relation) >= 2
  {
    ByteOrder(2, relation);
  }

  lemma ByteOrder(x: bv8, y: bv8)
    ensures x <= y <==> x as int <= y as int
  {
  }

  /**
   * Relations are or-ed together as edges are found. On those that are not negative, any bit but that of `EDGE_D` makes
   * an edge immediate, and so does a union with an immediate one.
   */
  lemma ImmediateBits(p: bv8, q: bv8)
    requires Signed(p) >= 0 && Signed(q) >= 0
    ensures Immediate(p) <==> p != 0 && p != EDGE_D
    ensures p & EDGE_I != 0 || p & WR != 0 ==> Immediate(p)
    ensures Signed(p | q) >= 0 && (Immediate(p | q) <==> Immediate(p) || Immediate(q))
  {
  }

  predicate ImmEdge<V>(t: TxnGraph<V>, u: V, v: V) {
    u in t.g.succs && v in t.g.succs[u] && Immediate(t.g.succs[u][v])
  }

  // ---- The view through transaction ids

  ghost function IdSet<V(!new)>(t: TxnGraph<V>, s: set<V>): set<nat>
    requires s <= t.id.Keys
  {
    set x | x in s :: t.id[x]
  }

  ghost function Ids<V>(t: TxnGraph<V>, s: seq<V>): seq<nat>
    requires forall x :: x in s ==> x in t.id
  {
    seq(|s|, i requires 0 <= i < |s| => t.id[s[i]])
  }

  ghost function Component<V(!new)>(t: TxnGraph<V>, v: V): set<V> {
    set x | x in t.g.succs && Mutual(t.g, v, x)
  }

  /** The immediate dependencies of the whole graph, as pairs of ids. */
  ghost function ImmIds<V(!new)>(t: TxnGraph<V>): set<(nat, nat)>
    requires ValidTxn(t)
  {
    set u, v | u in t.g.succs && v in t.g.succs[u] && Immediate(t.g.succs[u][v]) :: (t.id[u], t.id[v])
  }

  lemma ImmPair<V(!new)>(t: TxnGraph<V>, u: V, v: V)
    requires ValidTxn(t) && u in t.id && v in t.id
    ensures (t.id[u], t.id[v]) in ImmIds(t) <==> ImmEdge(t, u, v)
  {
    if (t.id[u], t.id[v]) in ImmIds(t) {
      var u', v' :| u' in t.g.succs && v' in t.g.succs[u'] && Immediate(t.g.succs[u'][v'])
        && (t.id[u'], t.id[v']) == (t.id[u], t.id[v]);
      assert Edge(t.g, u', v');
    }
  }

  /** An id pair ending in the id of `v` comes from an immediate parent of `v`. */
  lemma ImmParent<V(!new)>(t: TxnGraph<V>, p: nat, v: V) returns (u: V)
    requires ValidTxn(t) && v in t.id && (p, t.id[v]) in ImmIds(t)
    ensures u in t.id && t.id[u] == p && ImmEdge(t, u, v)
  {
    var u', v' :| u' in t.g.succs && v' in t.g.succs[u'] && Immediate(t.g.succs[u'][v'])
      && (t.id[u'], t.id[v']) == (p, t.id[v]);
    assert Edge(t.g, u', v');
    u := u';
  }

  lemma IdIn<V(!new)>(t: TxnGraph<V>, s: set<V>, u: V)
    requires ValidTxn(t) && s <= t.id.Keys && u in t.id
    ensures t.id[u] in IdSet(t, s) <==> u in s
  {
  }

  lemma ReadyById<V(!new)>(t: TxnGraph<V>, seen: set<V>, c: V)
    requires ValidTxn(t) && seen <= t.id.Keys && c in t.id
    ensures Ready(ImmIds(t), IdSet(t, seen), t.id[c]) <==> forall p :: ImmEdge(t, p, c) ==> p in seen
  {
    if Ready(ImmIds(t), IdSet(t, seen), t.id[c]) {
      forall p | ImmEdge(t, p, c)
        ensures p in seen
      {
        ImmPair(t, p, c);
        IdIn(t, seen, p);
      }
    }
    if forall p :: ImmEdge(t, p, c) ==> p in seen {
      forall q | (q, t.id[c]) in ImmIds(t)
        ensures q in IdSet(t, seen)
      {
        var p := ImmParent(t, q, c);
        IdIn(t, seen, p);
      }
    }
  }

  lemma InnerById<V(!new)>(t: TxnGraph<V>, scc: set<V>, c: V)
    requires ValidTxn(t) && scc <= t.id.Keys && c in t.id
    ensures HasInner(IdSet(t, scc), ImmIds(t), t.id[c]) <==> exists p :: p in scc && ImmEdge(t, p, c)
  {
    if HasInner(IdSet(t, scc), ImmIds(t), t.id[c]) {
      var q :| q in IdSet(t, scc) && (q, t.id[c]) in ImmIds(t);
      var p := ImmParent(t, q, c);
      IdIn(t, scc, p);
      assert p in scc && ImmEdge(t, p, c);
    }
    if exists p :: p in scc && ImmEdge(t, p, c) {
      var p :| p in scc && ImmEdge(t, p, c);
      ImmPair(t, p, c);
      IdIn(t, scc, p);
    }
  }

  // ---- The pieces of sorted_scc

  /** The inner loop that looks for an immediate parent inside the component. */
  method HasInnerParent<V(==, !new)>(t: TxnGraph<V>, scc: set<V>, v: V) returns (type2: bool)
    requires ValidTxn(t) && v in t.id
    ensures type2 <==> exists p :: p in scc && ImmEdge(t, p, v)
  {
    ParentsAre(t, v);
    hide ImmEdge, Immediate, ValidTxn;
    type2 := false;
    var todo := t.g.preds[v].Keys;
    while todo != {}
      invariant todo <= t.g.preds[v].Keys
      invariant type2 <==> exists p :: p in scc && p in t.g.preds[v] && p !in todo && Immediate(t.g.preds[v][p])
      decreases |todo|
    {
      var p :| p in todo;
      if Immediate(t.g.preds[v][p]) && p in scc {
        type2 := true;
      }
      todo := todo - {p};
    }
  }

  lemma ParentsAre<V(!new)>(t: TxnGraph<V>, v: V)
    requires ValidTxn(t) && v in t.id
    ensures v in t.g.preds
    ensures forall p :: ImmEdge(t, p, v) <==> p in t.g.preds[v] && Immediate(t.g.preds[v][p])
  {
    hide Immediate;
    assert forall p :: Edge(t.g, p, v) <==> p in t.g.preds[v];
  }

  /** The inner loop that asks whether every immediate parent has been visited. */
  method AllParentsVisited<V(==, !new)>(t: TxnGraph<V>, dfsStatus: map<V, int>, c: V) returns (allVisited: bool)
    requires ValidTxn(t) && c in t.id
    ensures allVisited <==> forall p :: ImmEdge(t, p, c) ==> p in dfsStatus && dfsStatus[p] == 1
  {
    allVisited := true;
    var todo := t.g.preds[c].Keys;
    while todo != {}
      invariant todo <= t.g.preds[c].Keys
      invariant allVisited
      invariant forall p :: p in t.g.preds[c] && p !in todo && Immediate(t.g.preds[c][p]) ==>
        p in dfsStatus && dfsStatus[p] == 1
      decreases |todo|
    {
      var p :| p in todo;
      todo := todo - {p};
      if Immediate(t.g.preds[c][p]) && !(p in dfsStatus && dfsStatus[p] == 1) {
        assert Edge(t.g, p, c);
        allVisited := false;
        return;
      }
    }
    assert forall p :: ImmEdge(t, p, c) ==> Edge(t.g, p, c);
  }

  // ---- Sorting vectors of vertices

  lemma {:induction false} CountsOnce<T>(s: seq<T>)
    ensures NoDup(s) <==> forall x :: multiset(s)[x] <= 1
  {
    if s != [] {
      var rest, last := s[..|s| - 1], s[|s| - 1];
      assert s == rest + [last];
      CountsOnce(rest);
      assert forall x :: multiset(s)[x] == multiset(rest)[x] + if x == last then 1 else 0;
      if NoDup(s) {
        assert last !in rest;
      }
      if forall x :: multiset(s)[x] <= 1 {
        assert forall x :: multiset(rest)[x] <= multiset(s)[x];
        assert multiset(s)[last] <= 1;
        assert last !in multiset(rest);
        assert last !in rest;
      }
    }
  }

  lemma SameElems<T>(a: seq<T>, b: seq<T>)
    requires multiset(a) == multiset(b)
    ensures Elems(a) == Elems(b) && |a| == |b| && (NoDup(a) ==> NoDup(b))
  {
    CountsOnce(a);
    CountsOnce(b);
    forall x
      ensures x in a <==> x in b
    {
      assert x in a <==> x in multiset(a);
      assert x in b <==> x in multiset(b);
    }
    assert |a| == |multiset(a)| && |b| == |multiset(b)|;
  }

  /** `sort_vv`: ascending ids, or descending when the flag is set. */
  method SortVv<V(==)>(id: map<V, nat>, vv: seq<V>, flag: bool) returns (r: seq<V>)
    requires forall x :: x in vv ==> x in id
    ensures multiset(r) == multiset(vv)
    ensures if flag then SortedById(id, Reverse(r)) else SortedById(id, r)
  {
    var a := new V[|vv|](i requires 0 <= i < |vv| => vv[i]);
    assert a[..] == vv;
    QsortVv(id, a, 0, a.Length - 1);
    assert a[..][0..a.Length] == a[..];
    r := a[..];
    if flag {
      var up := r;
      r := Reverse(up);
      assert Reverse(r) == up;
      ReverseMultiset(up);
    }
  }

  lemma {:induction false} ReverseMultiset<T>(s: seq<T>)
    ensures multiset(Reverse(s)) == multiset(s)
  {
    if s != [] {
      var rest, last := s[..|s| - 1], s[|s| - 1];
      assert s == rest + [last];
      ReverseMultiset(rest);
      assert Reverse(s) == [last] + Reverse(rest);
    }
  }

  /** A sorted vector of distinct vertices lists the ids of its vertices in ascending order. */
  lemma SortedIds<V(!new)>(t: TxnGraph<V>, r: seq<V>)
    requires ValidTxn(t) && NoDup(r) && SortedById(t.id, r)
    ensures Ascending(Ids(t, r)) && Ids(t, r) == Asc(IdSet(t, Elems(r)))
  {
    var ids := Ids(t, r);
    forall i, j | 0 <= i < j < |ids|
      ensures ids[i] < ids[j]
    {
      assert InOrder(t.id, r, i, j);
      assert r[i] != r[j] && r[i] in r && r[j] in r;
    }
    IdsElems(t, r);
    AscUnique(ids, Asc(IdSet(t, Elems(r))));
  }

  lemma IdsElems<V(!new)>(t: TxnGraph<V>, r: seq<V>)
    requires ValidTxn(t) && forall x :: x in r ==> x in t.id
    ensures Elems(Ids(t, r)) == IdSet(t, Elems(r))
  {
    var ids := Ids(t, r);
    forall n
      ensures n in ids <==> n in IdSet(t, Elems(r))
    {
      if n in ids {
        var i :| 0 <= i < |ids| && ids[i] == n;
        assert r[i] in Elems(r);
      }
      if n in IdSet(t, Elems(r)) {
        var x :| x in Elems(r) && t.id[x] == n;
        var i :| 0 <= i < |r| && r[i] == x;
        assert ids[i] == n;
      }
    }
  }

  // ---- The topological sort

  /** The start set: members without an immediate parent inside the component. */
  method StartVv<V(==, !new)>(t: TxnGraph<V>, sccSet: set<V>) returns (startVv: seq<V>)
    requires ValidTxn(t) && sccSet <= t.id.Keys
    ensures NoDup(startVv) && Elems(startVv) <= sccSet
    ensures IdSet(t, Elems(startVv)) == Starts(IdSet(t, sccSet), ImmIds(t))
  {
    startVv := [];
    var todo := sccSet;
    while todo != {}
      invariant todo <= sccSet && NoDup(startVv) && Elems(startVv) <= sccSet - todo
      invariant forall c :: c in sccSet - todo ==>
        (c in Elems(startVv) <==> !exists p :: p in sccSet && ImmEdge(t, p, c))
      decreases |todo|
    {
      var v :| v in todo;
      todo := todo - {v};
      var type2 := HasInnerParent(t, sccSet, v);
      if !type2 {
        ElemsAppend(startVv, [v]);
        NoDupAppend(startVv, [v]);
        startVv := startVv + [v];
      }
    }
    StartsById(t, sccSet, Elems(startVv));
  }

  lemma StartsById<V(!new)>(t: TxnGraph<V>, scc: set<V>, start: set<V>)
    requires ValidTxn(t) && start <= scc <= t.id.Keys
    requires forall c :: c in scc ==> (c in start <==> !exists p :: p in scc && ImmEdge(t, p, c))
    ensures IdSet(t, start) == Starts(IdSet(t, scc), ImmIds(t))
  {
    forall n
      ensures n in IdSet(t, start) <==> n in Starts(IdSet(t, scc), ImmIds(t))
    {
      if n in IdSet(t, scc) {
        var c :| c in scc && t.id[c] == n;
        InnerById(t, scc, c);
        IdIn(t, start, c);
      }
    }
  }

  /** The immediate children of `v` inside the component. */
  method ChildrenOf<V(==, !new)>(t: TxnGraph<V>, sccSet: set<V>, v: V) returns (children: seq<V>)
    requires ValidTxn(t) && v in t.id && sccSet <= t.id.Keys
    ensures NoDup(children) && forall c :: c in children <==> c in sccSet && ImmEdge(t, v, c)
  {
    children := [];
    var todo := t.g.succs[v].Keys;
    while todo != {}
      invariant todo <= t.g.succs[v].Keys && NoDup(children)
      invariant forall c :: c in children <==>
        c in sccSet && c in t.g.succs[v] && c !in todo && Immediate(t.g.succs[v][c])
      decreases |todo|
    {
      var vt :| vt in todo;
      if Immediate(t.g.succs[v][vt]) && vt in sccSet {
        NoDupAppend(children, [vt]);
        children := children + [vt];
      }
      todo := todo - {vt};
    }
  }

  ghost predicate ParentsIn<V(!new)>(t: TxnGraph<V>, seen: set<V>, c: V) {
    forall p :: ImmEdge(t, p, c) ==> p in seen
  }

  /** The loop over the sorted children that keeps those whose immediate parents are all visited. */
  method KeepReady<V(==, !new)>(t: TxnGraph<V>, dfsStatus: map<V, int>, ghost seen: set<V>, children: seq<V>)
      returns (rel: seq<V>)
    requires ValidTxn(t) && NoDup(children) && SortedById(t.id, children)
    requires forall p :: p in seen <==> p in dfsStatus && dfsStatus[p] == 1
    ensures NoDup(rel) && SortedById(t.id, rel)
    ensures forall c :: c in rel <==> c in children && ParentsIn(t, seen, c)
  {
    rel := [];
    for i := 0 to |children|
      invariant NoDup(rel) && SortedById(t.id, rel)
      invariant forall c :: c in rel <==> c in children[..i] && ParentsIn(t, seen, c)
    {
      var cv := children[i];
      assert cv in children;
      var allVisited := AllParentsVisited(t, dfsStatus, cv);
      assert allVisited <==> ParentsIn(t, seen, cv);
      assert children[..i + 1] == children[..i] + [cv];
      if allVisited {
        AppendSorted(t.id, children, rel, i);
        rel := rel + [cv];
      }
    }
    assert children[..|children|] == children;
  }

  lemma AppendSorted<V>(id: map<V, nat>, children: seq<V>, rel: seq<V>, i: nat)
    requires i < |children| && NoDup(children) && SortedById(id, children)
    requires NoDup(rel) && SortedById(id, rel) && forall c :: c in rel ==> c in children[..i]
    ensures NoDup(rel + [children[i]]) && SortedById(id, rel + [children[i]])
  {
    assert children[i] in children;
    forall c | c in rel
      ensures c != children[i] && id[c] <= id[children[i]]
    {
      var k :| 0 <= k < i && children[k] == c;
      assert InOrder(id, children, k, i);
    }
    var longer := rel + [children[i]];
    forall a, b | 0 <= a < b < |longer|
      ensures InOrder(id, longer, a, b)
    {
      assert InOrder(id, rel, a, b);
      assert longer[a] in rel;
    }
  }

  lemma ReleasedById<V(!new)>(t: TxnGraph<V>, scc: set<V>, seen: set<V>, v: V, rel: seq<V>)
    requires ValidTxn(t) && v in t.id && scc <= t.id.Keys && seen <= t.id.Keys
    requires forall c :: c in rel <==> c in scc && ImmEdge(t, v, c) && ParentsIn(t, seen, c)
    ensures Elems(rel) <= t.id.Keys
    ensures IdSet(t, Elems(rel)) == Released(IdSet(t, scc), ImmIds(t), IdSet(t, seen), t.id[v])
  {
    forall n
      ensures n in IdSet(t, Elems(rel)) <==> n in Released(IdSet(t, scc), ImmIds(t), IdSet(t, seen), t.id[v])
    {
      if n in IdSet(t, scc) {
        var c :| c in scc && t.id[c] == n;
        ImmPair(t, v, c);
        ReadyById(t, seen, c);
        IdIn(t, Elems(rel), c);
      }
    }
  }

  /** The children of `v`, sorted by id, whose immediate parents are all visited. */
  method Release<V(==, !new)>(t: TxnGraph<V>, sccSet: set<V>, dfsStatus: map<V, int>, ghost seen: set<V>, v: V)
      returns (rel: seq<V>)
    requires ValidTxn(t) && v in t.id && sccSet <= t.id.Keys && seen <= t.id.Keys
    requires forall p :: p in seen <==> p in dfsStatus && dfsStatus[p] == 1
    ensures forall c :: c in rel ==> c in sccSet
    ensures Ids(t, rel) == Asc(Released(IdSet(t, sccSet), ImmIds(t), IdSet(t, seen), t.id[v]))
  {
    var children := ChildrenOf(t, sccSet, v);
    var sorted := SortVv(t.id, children, false);
    SameElems(children, sorted);
    assert forall c :: c in sorted <==> c in Elems(sorted);
    assert forall c :: c in children <==> c in Elems(children);
    rel := KeepReady(t, dfsStatus, seen, sorted);
    SortedIds(t, rel);
    ReleasedById(t, sccSet, seen, v, rel);
  }

  lemma IdsAppend<V>(t: TxnGraph<V>, a: seq<V>, b: seq<V>)
    requires (forall x :: x in a ==> x in t.id) && forall x :: x in b ==> x in t.id
    ensures (forall x :: x in a + b ==> x in t.id) && Ids(t, a + b) == Ids(t, a) + Ids(t, b)
  {
  }

  ghost predicate Within<V>(s: seq<V>, scc: set<V>) {
    forall x :: x in s ==> x in scc
  }

  /** `dfsStatus` marks exactly the placed members. */
  ghost predicate Marks<V(!new)>(dfsStatus: map<V, int>, placed: seq<V>) {
    forall p :: p in placed <==> p in dfsStatus && dfsStatus[p] == 1
  }

  /** One round of the loop: place the top of the stack and stack what it releases. */
  method Place<V(==, !new)>(t: TxnGraph<V>, sccSet: set<V>, startVv: seq<V>, dfsStatus: map<V, int>, ret2: seq<V>)
      returns (startVv': seq<V>, dfsStatus': map<V, int>, ret2': seq<V>)
    requires ValidTxn(t) && sccSet <= t.id.Keys && startVv != []
    requires Within(startVv, sccSet) && Within(ret2, sccSet) && Marks(dfsStatus, ret2)
    ensures Within(startVv', sccSet) && Within(ret2', sccSet) && Marks(dfsStatus', ret2')
    ensures Ids(t, ret2') == Ids(t, ret2) + [Ids(t, startVv)[|startVv| - 1]]
    ensures Ids(t, startVv') == NextStack(IdSet(t, sccSet), ImmIds(t), Ids(t, startVv), Ids(t, ret2))
  {
    var v := startVv[|startVv| - 1];
    var rest := startVv[..|startVv| - 1];
    assert startVv == rest + [v];
    assert v in startVv;
    dfsStatus' := dfsStatus[v := 1];
    ret2' := ret2 + [v];
    IdsElems(t, ret2');
    var rel := Release(t, sccSet, dfsStatus', Elems(ret2'), v);
    startVv' := rest + rel;
    IdsAppend(t, ret2, [v]);
    IdsAppend(t, rest, [v]);
    IdsAppend(t, rest, rel);
    assert Ids(t, [v]) == [t.id[v]];
    assert Ids(t, startVv)[..|startVv| - 1] == Ids(t, rest);
  }

  /** The loop over the stack of startable members. */
  method TopoSort<V(==, !new)>(t: TxnGraph<V>, sccSet: set<V>, start: seq<V>) returns (ret2: seq<V>)
    requires ValidTxn(t) && sccSet <= t.id.Keys && Within(start, sccSet)
    requires LoopInv(IdSet(t, sccSet), ImmIds(t), Ids(t, start), [])
    ensures Within(ret2, sccSet)
    ensures Ids(t, ret2) == Run(IdSet(t, sccSet), ImmIds(t), Ids(t, start), [])
  {
    ghost var scc, imm := IdSet(t, sccSet), ImmIds(t);
    var startVv := start;
    var dfsStatus: map<V, int> := map[];
    ret2 := [];
    assert Ids(t, ret2) == [];
    while startVv != []
      invariant Within(startVv, sccSet) && Within(ret2, sccSet) && Marks(dfsStatus, ret2)
      invariant LoopInv(scc, imm, Ids(t, startVv), Ids(t, ret2))
      invariant Run(scc, imm, Ids(t, startVv), Ids(t, ret2)) == Run(scc, imm, Ids(t, start), [])
      decreases scc - Elems(Ids(t, ret2))
    {
      StepInv(scc, imm, Ids(t, startVv), Ids(t, ret2));
      StepFresh(scc, imm, Ids(t, startVv), Ids(t, ret2));
      startVv, dfsStatus, ret2 := Place(t, sccSet, startVv, dfsStatus, ret2);
    }
  }

  /** From the component to its order; None where one of the `verify` checks stops the program. */
  method SortMembers<V(==, !new)>(t: TxnGraph<V>, ret: seq<V>) returns (r: Option<seq<V>>)
    requires ValidTxn(t) && NoDup(ret) && Within(ret, t.id.Keys)
    ensures r.Some? ==> Within(r.value, Elems(ret))
    ensures Order(IdSet(t, Elems(ret)), ImmIds(t)) == (if r.Some? then Some(Ids(t, r.value)) else None)
  {
    var sccSet := set x | x in ret;
    assert sccSet == Elems(ret);
    var startVv := StartVv(t, sccSet);
    if |startVv| == 0 {
      assert IdSet(t, Elems(startVv)) == {};
      return None;
    }
    var sorted := SortVv(t.id, startVv, true);
    InitInv(IdSet(t, sccSet), ImmIds(t));
    SortedStart(t, startVv, sorted);
    IdIn(t, Elems(startVv), startVv[0]);
    assert forall x :: x in sorted ==> x in Elems(sorted);
    var ret2 := TopoSort(t, sccSet, sorted);
    IdSetSize(t, ret, sccSet);
    r := if |ret2| != |ret| then None else Some(ret2);
  }

  /**
   `sorted_scc`: the returned order depends on ids only, holds every member of the component
   once, puts immediate parents first, and exists exactly when the immediate dependencies of
   the component allow it.
   */
  method SortedSccOf<V(==, !new)>(t: TxnGraph<V>, vertex: V) returns (r: Option<seq<V>>)
    requires ValidTxn(t) && vertex in t.id
    ensures r.Some? ==> Within(r.value, t.id.Keys)
    ensures Order(IdSet(t, Component(t, vertex)), ImmIds(t)) == (if r.Some? then Some(Ids(t, r.value)) else None)
    ensures r.Some? <==>
      Acyclic(IdSet(t, Component(t, vertex)), ImmIds(t)) && NoMixed(IdSet(t, Component(t, vertex)), ImmIds(t))
    ensures r.Some? ==> NoDup(r.value) && Elems(r.value) == Component(t, vertex) && ParentsFirst(t, r.value)
  {
    var ret := FindScc(t.g, vertex);
    MutualInside(t.g, vertex);
    assert Elems(ret) == Component(t, vertex);
    r := SortMembers(t, ret);
    ReachRefl(t.g, vertex);
    IdIn(t, Elems(ret), vertex);
    OrderDefined(IdSet(t, Elems(ret)), ImmIds(t));
    if r.Some? {
      OrderPromises(t, Elems(ret), r.value);
    }
  }

  /** Where the relation from one vertex to another is 2 or more, the first comes before the second. */
  ghost predicate ParentsFirst<V>(t: TxnGraph<V>, s: seq<V>) {
    forall i, j :: 0 <= i < |s| && 0 <= j < |s| && s[i] in t.g.succs && s[j] in t.g.succs[s[i]] ==>
      Signed(t.g.succs[s[i]][s[j]]) >= 2 ==> i < j
  }

  lemma OrderPromises<V(!new)>(t: TxnGraph<V>, scc: set<V>, s: seq<V>)
    requires ValidTxn(t) && scc <= t.id.Keys && Within(s, scc)
    requires Order(IdSet(t, scc), ImmIds(t)) == Some(Ids(t, s))
    ensures NoDup(s) && Elems(s) == scc && ParentsFirst(t, s)
  {
    hide Order, Signed;
    OrderMembers(IdSet(t, scc), ImmIds(t));
    FromIds(t, s, scc);
    forall i, j | 0 <= i < |s| && 0 <= j < |s| && s[i] in t.g.succs && s[j] in t.g.succs[s[i]]
        && Signed(t.g.succs[s[i]][s[j]]) >= 2
      ensures i < j
    {
      ParentFirst(t, scc, s, i, j);
    }
  }

  lemma ParentFirst<V(!new)>(t: TxnGraph<V>, scc: set<V>, s: seq<V>, i: nat, j: nat)
    requires ValidTxn(t) && scc <= t.id.Keys && Within(s, scc) && i < |s| && j < |s|
    requires Order(IdSet(t, scc), ImmIds(t)) == Some(Ids(t, s))
    requires s[i] in t.g.succs && s[j] in t.g.succs[s[i]] && Signed(t.g.succs[s[i]][s[j]]) >= 2
    ensures i < j
  {
    hide Order;
    ImmediateSigned(t.g.succs[s[i]][s[j]]);
    assert s[i] in s && s[j] in s;
    ImmPair(t, s[i], s[j]);
    OrderTopological(IdSet(t, scc), ImmIds(t), i, j);
  }

  lemma MutualInside<V(!new)>(g: Graph<V>, v: V)
    requires DepGraph.Valid(g) && v in g.succs
    ensures forall x :: Mutual(g, v, x) ==> x in g.succs
  {
    forall x | Mutual(g, v, x)
      ensures x in g.succs
    {
      ClosedUnderReach(g, g.succs.Keys, v, x);
    }
  }

  lemma SortedStart<V(!new)>(t: TxnGraph<V>, startVv: seq<V>, sorted: seq<V>)
    requires ValidTxn(t) && NoDup(startVv) && Within(startVv, t.id.Keys)
    requires multiset(sorted) == multiset(startVv) && SortedById(t.id, Reverse(sorted))
    ensures Elems(sorted) == Elems(startVv)
    ensures Within(sorted, t.id.Keys)
    ensures Ids(t, sorted) == Reverse(Asc(IdSet(t, Elems(startVv))))
  {
    SameElems(startVv, sorted);
    assert forall x :: x in sorted ==> x in Elems(sorted);
    DescendingIds(t, sorted);
  }

  lemma DescendingIds<V(!new)>(t: TxnGraph<V>, sorted: seq<V>)
    requires ValidTxn(t) && NoDup(sorted) && SortedById(t.id, Reverse(sorted)) && Within(sorted, t.id.Keys)
    ensures Ids(t, sorted) == Reverse(Asc(IdSet(t, Elems(sorted))))
  {
    hide ValidTxn, IdSet, SortedById, NoDup;
    ReverseMultiset(sorted);
    SameElems(sorted, Reverse(sorted));
    assert forall x :: x in Reverse(sorted) ==> x in Elems(Reverse(sorted));
    SortedIds(t, Reverse(sorted));
    IdsReversed(t, sorted);
  }

  lemma IdsReversed<V(!new)>(t: TxnGraph<V>, s: seq<V>)
    requires Within(s, t.id.Keys)
    ensures Within(Reverse(s), t.id.Keys) && Ids(t, s) == Reverse(Ids(t, Reverse(s)))
  {
    var r := Reverse(s);
    assert forall i :: 0 <= i < |s| ==> s[i] in s && r[|s| - 1 - i] == s[i];
  }

  lemma IdSetSize<V(!new)>(t: TxnGraph<V>, ret: seq<V>, s: set<V>)
    requires ValidTxn(t) && NoDup(ret) && s == Elems(ret) && s <= t.id.Keys
    ensures |IdSet(t, s)| == |ret|
  {
    assert Within(ret, t.id.Keys) by {
      assert forall x :: x in ret ==> x in Elems(ret);
    }
    IdsElems(t, ret);
    IdsNoDup(t, ret);
    NoDupSize(Ids(t, ret));
  }

  lemma IdsNoDup<V(!new)>(t: TxnGraph<V>, s: seq<V>)
    requires ValidTxn(t) && Within(s, t.id.Keys)
    ensures NoDup(s) <==> NoDup(Ids(t, s))
  {
    assert forall i :: 0 <= i < |s| ==> s[i] in s && Ids(t, s)[i] == t.id[s[i]];
  }

  lemma FromIds<V(!new)>(t: TxnGraph<V>, s: seq<V>, scc: set<V>)
    requires ValidTxn(t) && scc <= t.id.Keys && Within(s, scc)
    requires NoDup(Ids(t, s)) && Elems(Ids(t, s)) == IdSet(t, scc)
    ensures NoDup(s) && Elems(s) == scc
  {
    IdsNoDup(t, s);
    IdsElems(t, s);
    forall x | x in scc
      ensures x in Elems(s)
    {
      IdIn(t, scc, x);
      IdIn(t, Elems(s), x);
    }
  }

  // ---- Every server computes the same order

  /** `a` and `c` are the vertices of one transaction on two servers. */
  ghost predicate Twins<V, W>(t: TxnGraph<V>, u: TxnGraph<W>, a: V, c: W) {
    a in t.id && c in u.id && t.id[a] == u.id[c]
  }

  ghost predicate HasTwin<V, W(!new)>(t: TxnGraph<V>, u: TxnGraph<W>, a: V) {
    exists c :: Twins(t, u, a, c)
  }

  /** Two graphs are the same up to the addresses of their vertices. */
  ghost predicate SameById<V(!new), W(!new)>(t: TxnGraph<V>, u: TxnGraph<W>) {
    && ValidTxn(t) && ValidTxn(u)
    && (forall a {:trigger HasTwin(t, u, a)} :: a in t.id ==> HasTwin(t, u, a))
    && (forall c {:trigger HasTwin(u, t, c)} :: c in u.id ==> HasTwin(u, t, c))
    && (forall a, b, c, d {:trigger Twins(t, u, a, c), Twins(t, u, b, d)} :: Twins(t, u, a, c) && Twins(t, u, b, d) ==>
          (b in t.g.succs[a] <==> d in u.g.succs[c]) && (b in t.g.succs[a] ==> t.g.succs[a][b] == u.g.succs[c][d]))
  }

  lemma SameSym<V(!new), W(!new)>(t: TxnGraph<V>, u: TxnGraph<W>)
    requires SameById(t, u)
    ensures SameById(u, t)
  {
    forall a, b, c, d | Twins(u, t, a, c) && Twins(u, t, b, d)
      ensures (b in u.g.succs[a] <==> d in t.g.succs[c]) && (b in u.g.succs[a] ==> u.g.succs[a][b] == t.g.succs[c][d])
    {
      assert Twins(t, u, c, a) && Twins(t, u, d, b);
    }
  }

  ghost function Twin<V(!new), W(!new)>(t: TxnGraph<V>, u: TxnGraph<W>, a: V): (c: W)
    requires SameById(t, u) && a in t.id
    ensures Twins(t, u, a, c)
  {
    assert HasTwin(t, u, a);
    var c :| Twins(t, u, a, c);
    c
  }

  lemma TwinEdge<V(!new), W(!new)>(t: TxnGraph<V>, u: TxnGraph<W>, a: V, b: V)
    requires SameById(t, u) && Edge(t.g, a, b)
    ensures b in t.id && Edge(u.g, Twin(t, u, a), Twin(t, u, b))
    ensures u.g.succs[Twin(t, u, a)][Twin(t, u, b)] == t.g.succs[a][b]
  {
    var c, d := Twin(t, u, a), Twin(t, u, b);
    assert Twins(t, u, a, c) && Twins(t, u, b, d);
  }

  lemma TwinReach<V(!new), W(!new)>(t: TxnGraph<V>, u: TxnGraph<W>, a: V, b: V)
    requires SameById(t, u) && a in t.id && b in t.id && Reach(t.g, a, b)
    ensures Reach(u.g, Twin(t, u, a), Twin(t, u, b))
  {
    var p :| PathFromTo(t.g, p, a, b);
    PathInside(t.g, p);
    var q := seq(|p|, i requires 0 <= i < |p| => Twin(t, u, p[i]));
    forall i, j | 0 <= i < j < |q| && j == i + 1
      ensures Edge(u.g, q[i], q[j])
    {
      TwinEdge(t, u, p[i], p[j]);
    }
    assert PathFromTo(u.g, q, Twin(t, u, a), Twin(t, u, b));
  }

  lemma {:induction false} PathInside<V(!new)>(g: Graph<V>, p: seq<V>)
    requires DepGraph.Valid(g) && IsPath(g, p) && p[0] in g.succs
    ensures forall i :: 0 <= i < |p| ==> p[i] in g.succs
  {
    forall i | 0 < i < |p|
      ensures p[i] in g.succs
    {
      assert Edge(g, p[i - 1], p[i]);
    }
  }

  lemma TwinComponent<V(!new), W(!new)>(t: TxnGraph<V>, u: TxnGraph<W>, v: V, w: W)
    requires SameById(t, u) && Twins(t, u, v, w)
    ensures IdSet(t, Component(t, v)) <= IdSet(u, Component(u, w))
  {
    forall n | n in IdSet(t, Component(t, v))
      ensures n in IdSet(u, Component(u, w))
    {
      var x :| x in Component(t, v) && t.id[x] == n;
      TwinReach(t, u, v, x);
      TwinReach(t, u, x, v);
      assert Twin(t, u, v) == w;
      assert Twin(t, u, x) in Component(u, w);
    }
  }

  lemma TwinImm<V(!new), W(!new)>(t: TxnGraph<V>, u: TxnGraph<W>)
    requires SameById(t, u)
    ensures ImmIds(t) <= ImmIds(u)
  {
    forall e | e in ImmIds(t)
      ensures e in ImmIds(u)
    {
      var a, b :| a in t.g.succs && b in t.g.succs[a] && Immediate(t.g.succs[a][b]) && (t.id[a], t.id[b]) == e;
      assert Edge(t.g, a, b);
      TwinEdge(t, u, a, b);
    }
  }

  /** The order of a component is a function of the id graph and the id asked for. */
  lemma OrderById<V(!new), W(!new)>(t: TxnGraph<V>, u: TxnGraph<W>, v: V, w: W)
    requires SameById(t, u) && Twins(t, u, v, w)
    ensures IdSet(t, Component(t, v)) == IdSet(u, Component(u, w)) && ImmIds(t) == ImmIds(u)
  {
    SameSym(t, u);
    assert Twins(u, t, w, v);
    TwinComponent(t, u, v, w);
    TwinComponent(u, t, w, v);
    TwinImm(t, u);
    TwinImm(u, t);
  }

  /** Two servers that hold the same graph at different addresses sort a component into the same ids. */
  method TwoServers<V(==, !new), W(==, !new)>(t: TxnGraph<V>, u: TxnGraph<W>, v: V, w: W)
      returns (r: Option<seq<V>>, s: Option<seq<W>>)
    requires SameById(t, u) && Twins(t, u, v, w)
    ensures r.Some? <==> s.Some?
    ensures r.Some? ==> Within(r.value, t.id.Keys) && Within(s.value, u.id.Keys) && Ids(t, r.value) == Ids(u, s.value)
  {
    OrderById(t, u, v, w);
    r := SortedSccOf(t, v);
    s := SortedSccOf(u, w);
  }

  // ---- A component that cannot be sorted

  /** Transactions 1 and 2 depend on each other, and both 1 and the outsider 0 come immediately before 2. */
  function MixedGraph(): TxnGraph<nat> {
    TxnGraph(Graph(map[0 := map[2 := 2], 1 := map[2 := 2], 2 := map[1 := 1]],
                   map[0 := map[], 1 := map[2 := 1], 2 := map[0 := 2, 1 := 2]]),
             map[0 := 0, 1 := 1, 2 := 2])
  }

  lemma MixedEdges(u: nat, v: nat)
    ensures Edge(MixedGraph().g, u, v) <==> (u == 0 && v == 2) || (u == 1 && v == 2) || (u == 2 && v == 1)
    ensures ImmEdge(MixedGraph(), u, v) <==> (u == 0 && v == 2) || (u == 1 && v == 2)
  {
    assert u > 2 ==> u !in MixedGraph().g.succs;
  }

  lemma MixedValid()
    ensures ValidTxn(MixedGraph())
  {
    var g := MixedGraph().g;
    assert g.succs.Keys == {0, 1, 2} == g.preds.Keys == MixedGraph().id.Keys;
    forall u, v
      ensures Edge(g, u, v) <==> v in g.preds && u in g.preds[v]
      ensures Edge(g, u, v) ==> g.preds[v][u] == g.succs[u][v]
    {
      MixedEdges(u, v);
    }
  }

  lemma MixedComponent()
    ensures ValidTxn(MixedGraph())
    ensures Component(MixedGraph(), 1) == {1, 2}
    ensures IdSet(MixedGraph(), {1, 2}) == {1, 2}
  {
    var t := MixedGraph();
    forall u, v
      ensures Edge(t.g, u, v) <==> (u == 0 && v == 2) || (u == 1 && v == 2) || (u == 2 && v == 1)
    {
      MixedEdges(u, v);
    }
    MixedValid();
    ReachRefl(t.g, 1);
    ReachEdge(t.g, 1, 2);
    ReachEdge(t.g, 2, 1);
    forall m | Mutual(t.g, 1, m)
      ensures m == 1 || m == 2
    {
      ClosedUnderReach(t.g, {1, 2}, 1, m);
    }
  }

  lemma MixedPairs()
    ensures ValidTxn(MixedGraph())
    ensures (0, 2) in ImmIds(MixedGraph()) && (1, 2) in ImmIds(MixedGraph())
  {
    MixedValid();
    MixedEdges(0, 2);
    MixedEdges(1, 2);
    ImmPair(MixedGraph(), 0, 2);
    ImmPair(MixedGraph(), 1, 2);
  }

  /** The final count check of `sorted_scc` fails on that graph. */
  method MixedParentsStop() returns (r: Option<seq<nat>>)
    ensures r == None
  {
    hide ValidTxn, Acyclic, Component, IdSet, ImmIds, Order, ParentsFirst;
    MixedComponent();
    MixedPairs();
    var t := MixedGraph();
    r := SortedSccOf(t, 1);
    assert HasInner({1, 2}, ImmIds(t), 2) by {
      assert (1, 2) in ImmIds(t);
    }
  }
}
