/** Ancestor search that stops at decided transactions (`dep_graph.cc`). */
module Ancestors {
  import opened DepGraph
  import opened Seqs
  import opened Tarjan

  /** A walk from `u` to `v` all of whose vertices before the last are undecided. */
  ghost predicate OpenPath<V>(g: Graph<V>, decided: set<V>, p: seq<V>, u: V, v: V) {
    PathFromTo(g, p, u, v) && forall i :: 0 <= i < |p| - 1 ==> p[i] !in decided
  }

  /** `u` is an undecided proper ancestor of `v` through undecided transactions. */
  ghost predicate OpenAncestor<V(!new)>(g: Graph<V>, decided: set<V>, u: V, v: V) {
    exists p :: |p| >= 2 && OpenPath(g, decided, p, u, v)
  }

  lemma ParentOpen<V(!new)>(g: Graph<V>, decided: set<V>, u: V, v: V)
    requires Edge(g, u, v) && u !in decided
    ensures OpenAncestor(g, decided, u, v)
  {
    assert OpenPath(g, decided, [u, v], u, v);
  }

  lemma OpenTrans<V(!new)>(g: Graph<V>, decided: set<V>, u: V, v: V, w: V)
    requires OpenAncestor(g, decided, u, v) && OpenAncestor(g, decided, v, w)
    ensures OpenAncestor(g, decided, u, w)
  {
    var p :| |p| >= 2 && OpenPath(g, decided, p, u, v);
    var q :| |q| >= 2 && OpenPath(g, decided, q, v, w);
    assert OpenPath(g, decided, p + q[1..], u, w);
  }

  /** Undecided parents of `y` have been collected. */
  ghost predicate Expanded<V(!new)>(g: Graph<V>, decided: set<V>, ret: set<V>, y: V) {
    forall x {:trigger Edge(g, x, y)} :: Edge(g, x, y) && x !in decided ==> x in ret
  }

  /** A set that holds every undecided parent of `v` and of its own members holds every open ancestor of `v`. */
  lemma {:induction false} ParentClosed<V(!new)>(g: Graph<V>, decided: set<V>, s: set<V>, u: V, v: V)
    requires OpenAncestor(g, decided, u, v)
    requires forall y {:trigger Expanded(g, decided, s, y)} :: y == v || y in s ==> Expanded(g, decided, s, y)
    ensures u in s
  {
    var p :| |p| >= 2 && OpenPath(g, decided, p, u, v);
    var i := |p| - 2;
    assert Edge(g, p[i], p[i + 1]) && Expanded(g, decided, s, v);
    while i > 0
      invariant 0 <= i < |p| - 1 && p[i] in s
    {
      assert Edge(g, p[i - 1], p[i]) && Expanded(g, decided, s, p[i]);
      i := i - 1;
    }
  }

  /** What the search has found: open ancestors of the source, beside what it started with. */
  ghost predicate Found<V(!new)>(g: Graph<V>, decided: set<V>, source: V, given: set<V>, ret: set<V>) {
    && given <= ret <= g.succs.Keys
    && forall x :: x in ret && x !in given ==> OpenAncestor(g, decided, x, source)
  }

  /** The search stack holds collected vertices whose parents have not been looked at. */
  ghost predicate SearchInv<V(!new)>(g: Graph<V>, decided: set<V>, source: V, given: set<V>, ret: set<V>,
      stack: seq<V>)
  {
    && Found(g, decided, source, given, ret)
    && (forall y :: y in stack ==> y == source || y in ret - given)
    && (forall y {:trigger Expanded(g, decided, ret, y)} ::
          (y == source || y in ret - given) && y !in stack ==> Expanded(g, decided, ret, y))
  }

  /**
   `find_txn_anc_opt`: with an empty `given` it returns exactly the undecided ancestors of the
   source through undecided transactions. `retSet` comes in by reference, so the search also
   runs on top of what an earlier search found.
   */
  method FindTxnAncOpt<V(==, !new)>(g: Graph<V>, decided: set<V>, source: V, given: set<V>) returns (retSet: set<V>)
    requires DepGraph.Valid(g) && source in g.succs && given <= g.succs.Keys
    ensures given - {source} <= retSet <= g.succs.Keys - {source}
    ensures forall x :: x in retSet && x !in given ==> OpenAncestor(g, decided, x, source)
    ensures forall y {:trigger Expanded(g, decided, retSet + {source}, y)} ::
              y in retSet + {source} && (y in given ==> y == source) ==> Expanded(g, decided, retSet + {source}, y)
    ensures given == {} ==> forall x :: x in retSet <==> x != source && OpenAncestor(g, decided, x, source)
  {
    retSet := given;
    var searchStack := [source];
    while searchStack != []
      invariant SearchInv(g, decided, source, given, retSet, searchStack)
      decreases |g.succs.Keys - retSet|, |searchStack|
    {
      retSet, searchStack := Round(g, decided, source, given, retSet, searchStack);
    }
    Complete(g, decided, source, given, retSet);
    ghost var found := retSet;
    retSet := retSet - {source};
    forall y | y in retSet + {source} && (y in given ==> y == source)
      ensures Expanded(g, decided, retSet + {source}, y)
    {
      assert Expanded(g, decided, found, y);
    }
  }

  lemma Complete<V(!new)>(g: Graph<V>, decided: set<V>, source: V, given: set<V>, ret: set<V>)
    requires SearchInv(g, decided, source, given, ret, [])
    ensures given == {} ==> forall x :: OpenAncestor(g, decided, x, source) ==> x in ret
  {
    if given == {} {
      forall x | OpenAncestor(g, decided, x, source)
        ensures x in ret
      {
        ParentClosed(g, decided, ret, x, source);
      }
    }
  }

  /** One round of the search loop. */
  method Round<V(==, !new)>(g: Graph<V>, decided: set<V>, source: V, ghost given: set<V>, ret: set<V>, stack: seq<V>)
      returns (ret': set<V>, stack': seq<V>)
    requires DepGraph.Valid(g) && source in g.succs && stack != []
    requires SearchInv(g, decided, source, given, ret, stack)
    ensures SearchInv(g, decided, source, given, ret', stack')
    ensures |g.succs.Keys - ret'| < |g.succs.Keys - ret| || (ret' == ret && |stack'| < |stack|)
  {
    var v := stack[|stack| - 1];
    var rest := stack[..|stack| - 1];
    assert stack == rest + [v];
    assert v in stack && forall y :: y in rest ==> y in stack;
    ret', stack' := AddParents(g, decided, source, given, ret, rest, v);
    forall y | (y == source || y in ret' - given) && y !in stack'
      ensures Expanded(g, decided, ret', y)
    {
      assert y == v || Expanded(g, decided, ret, y);
    }
    if ret != ret' {
      SmallerSet(g.succs.Keys - ret', g.succs.Keys - ret);
    }
  }

  /** The loop over the parents of `v`. */
  method AddParents<V(==, !new)>(g: Graph<V>, decided: set<V>, ghost source: V, ghost given: set<V>, ret: set<V>,
      stack: seq<V>, v: V)
      returns (ret': set<V>, stack': seq<V>)
    requires DepGraph.Valid(g) && v in g.succs && Found(g, decided, source, given, ret)
    requires v == source || OpenAncestor(g, decided, v, source)
    ensures Found(g, decided, source, given, ret') && ret <= ret' && Expanded(g, decided, ret', v)
    ensures stack <= stack' && (ret' == ret ==> stack' == stack)
    ensures forall y :: y in stack' <==> y in stack || y in ret' - ret
  {
    ret', stack' := ret, stack;
    var todo := g.preds[v].Keys;
    while todo != {}
      invariant todo <= g.preds[v].Keys
      invariant Found(g, decided, source, given, ret') && ret <= ret'
      invariant stack <= stack' && (ret' == ret ==> stack' == stack)
      invariant forall y :: y in stack' <==> y in stack || y in ret' - ret
      invariant forall x :: x in g.preds[v] && x !in todo && x !in decided ==> x in ret'
      decreases |todo|
    {
      var parent :| parent in todo;
      todo := todo - {parent};
      assert Edge(g, parent, v);
      if parent !in decided && parent !in ret' {
        ParentOpen(g, decided, parent, v);
        if v != source {
          OpenTrans(g, decided, parent, v, source);
        }
        ret' := ret' + {parent};
        stack' := stack' + [parent];
      }
    }
  }

  // ---- Ancestors of a strongly connected component

  /** Some member of the component has `x` as an open ancestor. */
  ghost predicate OpenAboveAny<V(!new)>(g: Graph<V>, decided: set<V>, scc: set<V>, x: V) {
    exists m :: m in scc && OpenAncestor(g, decided, x, m)
  }

  /** The loop over all members: one search per member into the same set. */
  method PerMemberSearch<V(==, !new)>(g: Graph<V>, decided: set<V>, scc: seq<V>) returns (retSet: set<V>)
    requires DepGraph.Valid(g) && forall m :: m in scc ==> m in g.succs
    ensures forall x :: x in retSet <==> x !in scc && OpenAboveAny(g, decided, Elems(scc), x)
  {
    retSet := {};
    for i := 0 to |scc|
      invariant retSet <= g.succs.Keys
      invariant forall x :: x in retSet ==> OpenAboveAny(g, decided, Elems(scc), x)
      invariant forall y {:trigger Expanded(g, decided, retSet + Elems(scc[..i]), y)} ::
                  y in retSet + Elems(scc[..i]) ==> Expanded(g, decided, retSet + Elems(scc[..i]), y)
    {
      ghost var given, done := retSet, Elems(scc[..i]);
      retSet := FindTxnAncOpt(g, decided, scc[i], retSet);
      assert scc[..i + 1] == scc[..i] + [scc[i]];
      assert Elems(scc[..i + 1]) == done + {scc[i]};
      MemberDone(g, decided, given, done, retSet, scc[i]);
      forall x | x in retSet
        ensures OpenAboveAny(g, decided, Elems(scc), x)
      {
        assert x in given || (scc[i] in Elems(scc) && OpenAncestor(g, decided, x, scc[i]));
      }
    }
    assert scc[..|scc|] == scc;
    forall x | OpenAboveAny(g, decided, Elems(scc), x)
      ensures x in retSet + Elems(scc)
    {
      var m :| m in Elems(scc) && OpenAncestor(g, decided, x, m);
      ParentClosed(g, decided, retSet + Elems(scc), x, m);
    }
    retSet := retSet - (set m | m in scc);
  }

  lemma MemberDone<V(!new)>(g: Graph<V>, decided: set<V>, given: set<V>, done: set<V>, ret: set<V>, m: V)
    requires given - {m} <= ret
    requires forall y {:trigger Expanded(g, decided, given + done, y)} :: y in given + done ==>
      Expanded(g, decided, given + done, y)
    requires forall y {:trigger Expanded(g, decided, ret + {m}, y)} ::
               y in ret + {m} && (y in given ==> y == m) ==> Expanded(g, decided, ret + {m}, y)
    ensures forall y {:trigger Expanded(g, decided, ret + (done + {m}), y)} ::
              y in ret + (done + {m}) ==> Expanded(g, decided, ret + (done + {m}), y)
  {
    forall y | y in ret + (done + {m})
      ensures Expanded(g, decided, ret + (done + {m}), y)
    {
      if y in given + done {
        assert Expanded(g, decided, given + done, y);
      } else {
        assert Expanded(g, decided, ret + {m}, y);
      }
    }
  }

  /** Some vertex of the component of `v` has `x` as an open ancestor. */
  ghost predicate AboveComponent<V(!new)>(g: Graph<V>, decided: set<V>, v: V, x: V) {
    exists m :: Mutual(g, v, m) && OpenAncestor(g, decided, x, m)
  }

  /** Every undecided parent of the component from outside it is an open ancestor of `root`. */
  ghost predicate EntriesReach<V(!new)>(g: Graph<V>, decided: set<V>, v: V, root: V) {
    forall e, m {:trigger Edge(g, e, m)} ::
      Edge(g, e, m) && Mutual(g, v, m) && !Mutual(g, v, e) && e !in decided ==> OpenAncestor(g, decided, e, root)
  }

  /** `ret` is what one search from the member `root` finds outside the component of `v`. */
  ghost predicate SearchedFrom<V(!new)>(g: Graph<V>, decided: set<V>, v: V, root: V, ret: set<V>) {
    Mutual(g, v, root) && forall x :: x in ret <==> !Mutual(g, v, x) && OpenAncestor(g, decided, x, root)
  }

  /** `ret` is what the loop over all members finds outside the component of `v`. */
  ghost predicate SearchedFromAll<V(!new)>(g: Graph<V>, decided: set<V>, v: V, ret: set<V>) {
    forall x :: x in ret <==> !Mutual(g, v, x) && AboveComponent(g, decided, v, x)
  }

  /**
   A member that may be listed first, and so be searched: Tarjan's search from `v` reaches it after every other member,
   which must all be reachable from `v` without passing it.
   */
  ghost predicate Candidate<V(!new)>(g: Graph<V>, v: V, root: V) {
    Mutual(g, v, root) && forall m :: Mutual(g, v, m) && m != root ==> Around(g, v, m, root)
  }

  /** No walk from `v` avoids `v`. */
  lemma NeverAround<V(!new)>(g: Graph<V>, v: V, m: V)
    ensures !Around(g, v, m, v)
  {
    forall p | PathFromTo(g, p, v, m)
      ensures v in p
    {
      assert p[0] in p;
    }
  }

  /** `v` itself is one only in a component of one. */
  lemma CandidateNotStart<V(!new)>(g: Graph<V>, v: V, m: V)
    requires Candidate(g, v, v) && Mutual(g, v, m)
    ensures m == v
  {
    NeverAround(g, v, m);
  }

  /**
   * Every undecided parent of the component from outside it is an open ancestor of every member that may be searched.
   */
  ghost predicate EntriesReachAll<V(!new)>(g: Graph<V>, decided: set<V>, v: V) {
    forall root :: Candidate(g, v, root) ==> EntriesReach(g, decided, v, root)
  }

  /**
   `find_txn_scc_anc_opt`: a single search, from whichever member Tarjan's search put first. When every undecided entry
   is above every candidate, and so when no member is decided, it finds what the loop over all members finds.
   */
  method FindTxnSccAncOpt<V(==, !new)>(g: Graph<V>, decided: set<V>, v: V) returns (retSet: set<V>)
    requires DepGraph.Valid(g) && v in g.succs
    ensures exists root :: Candidate(g, v, root) && SearchedFrom(g, decided, v, root, retSet)
    ensures EntriesReachAll(g, decided, v) ==> SearchedFromAll(g, decided, v, retSet)
    ensures (forall m :: Mutual(g, v, m) ==> m !in decided) ==> SearchedFromAll(g, decided, v, retSet)
  {
    var scc := FindScc(g, v);
    ReachRefl(g, v);
    assert v in scc;
    var root := scc[0];
    assert root in scc;
    ClosedUnderReach(g, g.succs.Keys, v, root);
    retSet := FindTxnAncOpt(g, decided, root, {});
    retSet := retSet - (set m | m in scc);
    FirstIsCandidate(g, v, scc);
    assert SearchedFrom(g, decided, v, root, retSet);
    SingleSearchExact(g, decided, v, root, retSet);
    if forall m :: Mutual(g, v, m) ==> m !in decided {
      UndecidedEntries(g, decided, v, root);
    }
  }

  lemma FirstIsCandidate<V(!new)>(g: Graph<V>, v: V, scc: seq<V>)
    requires NoDup(scc) && EndsWith(scc, v) && forall x :: x in scc <==> Mutual(g, v, x)
    requires forall m :: m in scc && m != scc[0] ==> Around(g, v, m, scc[0])
    ensures Candidate(g, v, scc[0])
  {
    hide Mutual, Around;
    assert scc[0] in scc;
  }

  /** Whichever candidate is searched, the single search finds what the loop over all members finds. */
  ghost predicate AlwaysExact<V(!new)>(g: Graph<V>, decided: set<V>, v: V) {
    forall root, ret :: Candidate(g, v, root) && SearchedFrom(g, decided, v, root, ret) ==>
      SearchedFromAll(g, decided, v, ret)
  }

  /** The condition without the member: a caller can check it on the graph and the decided set. */
  lemma AlwaysExactWhen<V(!new)>(g: Graph<V>, decided: set<V>, v: V)
    ensures AlwaysExact(g, decided, v) <==> EntriesReachAll(g, decided, v)
  {
    hide Mutual, EntriesReach, OpenAncestor;
    if AlwaysExact(g, decided, v) {
      forall root | Candidate(g, v, root)
        ensures EntriesReach(g, decided, v, root)
      {
        var ret := SearchResult(g, decided, v, root);
        SingleSearchExact(g, decided, v, root, ret);
      }
    }
    if EntriesReachAll(g, decided, v) {
      forall root, ret | Candidate(g, v, root) && SearchedFrom(g, decided, v, root, ret)
        ensures SearchedFromAll(g, decided, v, ret)
      {
        SingleSearchExact(g, decided, v, root, ret);
      }
    }
  }

  lemma SearchResult<V(!new)>(g: Graph<V>, decided: set<V>, v: V, root: V) returns (ret: set<V>)
    requires Mutual(g, v, root)
    ensures SearchedFrom(g, decided, v, root, ret)
  {
    ret := set x | x in g.succs && !Mutual(g, v, x) && OpenAncestor(g, decided, x, root);
    forall x | OpenAncestor(g, decided, x, root)
      ensures x in g.succs
    {
      var p :| |p| >= 2 && OpenPath(g, decided, p, x, root);
      assert Edge(g, p[0], p[1]);
    }
  }

  /**
   The single search stands in for the loop over all members exactly when its member is below every undecided parent of
   the component.
   */
  lemma SingleSearchExact<V(!new)>(g: Graph<V>, decided: set<V>, v: V, root: V, ret: set<V>)
    requires SearchedFrom(g, decided, v, root, ret)
    ensures SearchedFromAll(g, decided, v, ret) <==> EntriesReach(g, decided, v, root)
  {
    SingleSearch(g, decided, v, root);
  }

  lemma SingleSearch<V(!new)>(g: Graph<V>, decided: set<V>, v: V, root: V)
    requires Mutual(g, v, root)
    ensures (forall x :: !Mutual(g, v, x) ==> (OpenAncestor(g, decided, x, root) <==> AboveComponent(g, decided, v, x)))
              <==> EntriesReach(g, decided, v, root)
  {
    if forall x :: !Mutual(g, v, x) ==> (OpenAncestor(g, decided, x, root) <==> AboveComponent(g, decided, v, x)) {
      forall e, m | Edge(g, e, m) && Mutual(g, v, m) && !Mutual(g, v, e) && e !in decided
        ensures OpenAncestor(g, decided, e, root)
      {
        ParentOpen(g, decided, e, m);
        assert AboveComponent(g, decided, v, e);
      }
    }
    if EntriesReach(g, decided, v, root) {
      forall x | !Mutual(g, v, x)
        ensures OpenAncestor(g, decided, x, root) <==> AboveComponent(g, decided, v, x)
      {
        if AboveComponent(g, decided, v, x) {
          var m :| Mutual(g, v, m) && OpenAncestor(g, decided, x, m);
          ThroughEntry(g, decided, v, root, x, m);
        }
      }
    }
  }

  /** An open path from outside into the component passes an entry on its way. */
  lemma ThroughEntry<V(!new)>(g: Graph<V>, decided: set<V>, v: V, root: V, x: V, m: V)
    requires EntriesReach(g, decided, v, root)
    requires !Mutual(g, v, x) && Mutual(g, v, m) && OpenAncestor(g, decided, x, m)
    ensures OpenAncestor(g, decided, x, root)
  {
    var p :| |p| >= 2 && OpenPath(g, decided, p, x, m);
    var i := 0;
    while !Mutual(g, v, p[i + 1])
      invariant 0 <= i < |p| - 1 && !Mutual(g, v, p[i])
      decreases |p| - i
    {
      i := i + 1;
    }
    assert Edge(g, p[i], p[i + 1]);
    if i > 0 {
      assert OpenPath(g, decided, p[..i + 1], x, p[i]);
      OpenTrans(g, decided, x, p[i], root);
    }
  }

  lemma UndecidedEntries<V(!new)>(g: Graph<V>, decided: set<V>, v: V, root: V)
    requires Mutual(g, v, root) && forall m :: Mutual(g, v, m) ==> m !in decided
    ensures EntriesReach(g, decided, v, root)
  {
    forall e, m | Edge(g, e, m) && Mutual(g, v, m) && !Mutual(g, v, e) && e !in decided
      ensures OpenAncestor(g, decided, e, root)
    {
      ParentOpen(g, decided, e, m);
      AnyMember(g, decided, v, m, root, e);
    }
  }

  /** A walk between two members stays in the component. */
  lemma WalkInside<V(!new)>(g: Graph<V>, v: V, p: seq<V>, a: V, b: V, i: nat)
    requires Mutual(g, v, a) && Mutual(g, v, b) && PathFromTo(g, p, a, b) && i < |p|
    ensures Mutual(g, v, p[i])
  {
    hide Reach;
    assert Reach(g, a, p[i]) by { WalkPart(g, p, a, b, i); }
    assert Reach(g, p[i], b) by { WalkPart(g, p, a, b, i); }
    ReachTrans(g, v, a, p[i]);
    ReachTrans(g, p[i], b, v);
  }

  lemma WalkPart<V(!new)>(g: Graph<V>, p: seq<V>, a: V, b: V, i: nat)
    requires PathFromTo(g, p, a, b) && i < |p|
    ensures Reach(g, a, p[i]) && Reach(g, p[i], b)
  {
    assert PathFromTo(g, p[..i + 1], a, p[i]);
    assert PathFromTo(g, p[i..], p[i], b);
  }

  /** When no member is decided, an open ancestor of one member is an open ancestor of every member. */
  lemma AnyMember<V(!new)>(g: Graph<V>, decided: set<V>, v: V, a: V, b: V, x: V)
    requires Mutual(g, v, a) && Mutual(g, v, b) && forall m :: Mutual(g, v, m) ==> m !in decided
    requires !Mutual(g, v, x)
    ensures OpenAncestor(g, decided, x, a) ==> OpenAncestor(g, decided, x, b)
  {
    hide IsPath;
    if OpenAncestor(g, decided, x, a) && a != b {
      ReachTrans(g, a, v, b);
      var p :| PathFromTo(g, p, a, b);
      hide Mutual, Reach;
      forall i | 0 <= i < |p|
        ensures p[i] !in decided
      {
        WalkInside(g, v, p, a, b, i);
      }
      assert |p| > 0 by { WalkLength(g, p, a, b); }
      assert |p| >= 2;
      assert OpenPath(g, decided, p, a, b);
      OpenTrans(g, decided, x, a, b);
    }
  }

  lemma WalkLength<V>(g: Graph<V>, p: seq<V>, a: V, b: V)
    requires PathFromTo(g, p, a, b)
    ensures |p| > 0
  {
  }

  // ---- A component with a decided member

  function EntryGraph(): Graph<nat> {
    Graph(map[0 := map[1 := 1], 1 := map[2 := 1], 2 := map[1 := 1]],
          map[0 := map[], 1 := map[0 := 1, 2 := 1], 2 := map[1 := 1]])
  }

  lemma EntryEdges(u: nat, v: nat)
    ensures Edge(EntryGraph(), u, v) <==> (u == 0 && v == 1) || (u == 1 && v == 2) || (u == 2 && v == 1)
  {
    assert u > 2 ==> u !in EntryGraph().succs;
  }

  lemma EntryValid()
    ensures DepGraph.Valid(EntryGraph())
  {
    var g := EntryGraph();
    assert g.succs.Keys == {0, 1, 2} == g.preds.Keys;
    forall u, v
      ensures Edge(g, u, v) <==> v in g.preds && u in g.preds[v]
      ensures Edge(g, u, v) ==> g.preds[v][u] == g.succs[u][v]
    {
      EntryEdges(u, v);
    }
  }

  lemma EntryComponent(m: nat)
    ensures Mutual(EntryGraph(), 1, m) <==> m == 1 || m == 2
  {
    var g := EntryGraph();
    forall u, v
      ensures Edge(g, u, v) <==> (u == 0 && v == 1) || (u == 1 && v == 2) || (u == 2 && v == 1)
    {
      EntryEdges(u, v);
    }
    if Mutual(g, 1, m) {
      ClosedUnderReach(g, {1, 2}, 1, m);
    }
    ReachRefl(g, 1);
    ReachEdge(g, 1, 2);
    ReachEdge(g, 2, 1);
  }

  /** An open ancestor comes in through an undecided parent. */
  lemma LastStep<V(!new)>(g: Graph<V>, decided: set<V>, x: V, v: V)
    requires OpenAncestor(g, decided, x, v)
    ensures exists u :: Edge(g, u, v) && u !in decided
  {
    var p :| |p| >= 2 && OpenPath(g, decided, p, x, v);
    assert Edge(g, p[|p| - 2], p[|p| - 1]);
  }

  lemma EntryAncestors(x: nat)
    ensures !OpenAncestor(EntryGraph(), {1}, x, 2)
    ensures OpenAncestor(EntryGraph(), {1}, 0, 1)
    ensures OpenAncestor(EntryGraph(), {1}, x, 1) ==> x == 0 || x == 2
  {
    hide EntryGraph, OpenAncestor;
    var g := EntryGraph();
    forall u, v
      ensures Edge(g, u, v) <==> (u == 0 && v == 1) || (u == 1 && v == 2) || (u == 2 && v == 1)
    {
      EntryEdges(u, v);
    }
    ParentOpen(g, {1}, 0, 1);
    if OpenAncestor(g, {1}, x, 1) {
      ParentClosed(g, {1}, {0, 2}, x, 1);
    }
    if OpenAncestor(g, {1}, x, 2) {
      LastStep(g, {1}, x, 2);
    }
  }

  /** What the two searches find, by one vertex. */
  lemma EntryFound(x: nat, root: nat, single: set<nat>, loop: set<nat>)
    requires Candidate(EntryGraph(), 1, root) && SearchedFrom(EntryGraph(), {1}, 1, root, single)
    requires x in loop <==> x !in [2, 1] && OpenAboveAny(EntryGraph(), {1}, Elems([2, 1]), x)
    ensures x !in single && (x in loop <==> x == 0)
  {
    hide EntryGraph, OpenAncestor, Mutual;
    EntryComponent(2);
    EntryComponent(root);
    if root == 1 {
      CandidateNotStart(EntryGraph(), 1, 2);
    }
    EntryComponent(x);
    EntryAncestors(x);
    assert Elems([2, 1]) == {1, 2};
    assert x == 0 ==> 1 in Elems([2, 1]) && OpenAncestor(EntryGraph(), {1}, x, 1);
  }

  /**
   Transaction 0 precedes the component of 1 and 2, and 1 is decided.  The search for the component of 1 starts from 2,
   where 1 hides 0; the loop over both members finds it.
   */
  method DecidedMemberHides() returns (single: set<nat>, loop: set<nat>)
    ensures single == {} && loop == {0}
  {
    hide Candidate, SearchedFrom, OpenAboveAny, EntriesReachAll, SearchedFromAll, DepGraph.Valid;
    var g := EntryGraph();
    EntryValid();
    single := FindTxnSccAncOpt(g, {1}, 1);
    loop := PerMemberSearch(g, {1}, [2, 1]);
    ghost var root :| Candidate(g, 1, root) && SearchedFrom(g, {1}, 1, root, single);
    forall x: nat
      ensures x !in single && (x in loop <==> x == 0)
    {
      EntryFound(x, root, single, loop);
    }
  }
}
