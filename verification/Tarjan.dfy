/** Tarjan's search for the strongly connected component of one vertex. */
module Tarjan {
  import opened DepGraph
  import opened Seqs

  // ---- The invariant of the search, over the index map, the set of stacked vertices
  // ---- and the set `gray` of vertices whose call is still open.

  ghost predicate Shape<V>(g: Graph<V>, idx: map<V, nat>, stk: set<V>, gray: set<V>) {
    gray <= stk <= idx.Keys <= g.succs.Keys
  }

  /** A vertex numbered before another stacked one reaches it. */
  ghost predicate StackDown<V(!new)>(g: Graph<V>, idx: map<V, nat>, stk: set<V>)
    requires stk <= idx.Keys
  {
    forall x, y {:trigger Reach(g, x, y)} :: x in stk && y in stk && idx[x] < idx[y] ==> Reach(g, x, y)
  }

  /** `y` reaches the open vertex `x`, which is not numbered after it. */
  ghost predicate UpTo<V(!new)>(g: Graph<V>, idx: map<V, nat>, gray: set<V>, y: V, x: V)
    requires gray <= idx.Keys && y in idx
  {
    x in gray && idx[x] <= idx[y] && Reach(g, y, x)
  }

  ghost predicate HasUp<V(!new)>(g: Graph<V>, idx: map<V, nat>, gray: set<V>, y: V)
    requires gray <= idx.Keys && y in idx
  {
    exists x :: UpTo(g, idx, gray, y, x)
  }

  ghost predicate StackUp<V(!new)>(g: Graph<V>, idx: map<V, nat>, stk: set<V>, gray: set<V>)
    requires gray <= stk <= idx.Keys
  {
    forall y {:trigger HasUp(g, idx, gray, y)} :: y in stk ==> HasUp(g, idx, gray, y)
  }

  /** Closed calls have seen all their successors; popped vertices lead to popped ones only. */
  ghost predicate Settled<V(!new)>(g: Graph<V>, idx: map<V, nat>, stk: set<V>, gray: set<V>) {
    && (forall x, y {:trigger Edge(g, x, y)} :: x in idx && x !in gray && Edge(g, x, y) ==> y in idx)
    && (forall x, y {:trigger Edge(g, x, y)} :: x in idx && x !in stk && Edge(g, x, y) ==> y in idx && y !in stk)
  }

  ghost predicate Inv<V(!new)>(g: Graph<V>, idx: map<V, nat>, stk: set<V>, gray: set<V>) {
    && Shape(g, idx, stk, gray)
    && StackDown(g, idx, stk)
    && StackUp(g, idx, stk, gray)
    && Settled(g, idx, stk, gray)
  }

  /** Opening a call on a fresh vertex that every open vertex reaches keeps the invariant. */
  lemma PushInv<V(!new)>(g: Graph<V>, idx: map<V, nat>, stk: set<V>, gray: set<V>, v: V, n: nat)
    requires Inv(g, idx, stk, gray) && v in g.succs && v !in idx
    requires forall x :: x in idx ==> idx[x] < n
    requires forall x :: x in gray ==> Reach(g, x, v)
    ensures Inv(g, idx[v := n], stk + {v}, gray + {v})
  {
    forall y | y in stk
      ensures Reach(g, y, v)
    {
      assert HasUp(g, idx, gray, y);
      var x :| UpTo(g, idx, gray, y, x);
      ReachTrans(g, y, x, v);
    }
    PushUp(g, idx, stk, gray, v, n);
  }

  lemma PushUp<V(!new)>(g: Graph<V>, idx: map<V, nat>, stk: set<V>, gray: set<V>, v: V, n: nat)
    requires gray <= stk <= idx.Keys && v !in idx && StackUp(g, idx, stk, gray)
    ensures StackUp(g, idx[v := n], stk + {v}, gray + {v})
  {
    var idx' := idx[v := n];
    forall y | y in stk + {v}
      ensures HasUp(g, idx', gray + {v}, y)
    {
      if y == v {
        ReachRefl(g, v);
        assert UpTo(g, idx', gray + {v}, v, v);
      } else {
        assert HasUp(g, idx, gray, y);
        var x :| UpTo(g, idx, gray, y, x);
        assert UpTo(g, idx', gray + {v}, y, x);
      }
    }
  }

  /** Closing a call whose vertex reaches a lower stacked vertex keeps the invariant. */
  lemma StayInv<V(!new)>(g: Graph<V>, idx: map<V, nat>, stk: set<V>, gray: set<V>, v: V, low: V)
    requires Inv(g, idx, stk, gray + {v}) && v !in gray
    requires forall y :: Edge(g, v, y) ==> y in idx
    requires low in stk && idx[low] < idx[v] && Reach(g, v, low)
    ensures Inv(g, idx, stk, gray)
  {
    assert HasUp(g, idx, gray + {v}, low);
    var z :| UpTo(g, idx, gray + {v}, low, z);
    forall y | y in stk
      ensures HasUp(g, idx, gray, y)
    {
      assert HasUp(g, idx, gray + {v}, y);
      var x :| UpTo(g, idx, gray + {v}, y, x);
      if x == v {
        ReachTrans(g, y, v, low);
        ReachTrans(g, y, low, z);
        assert UpTo(g, idx, gray, y, z);
      } else {
        assert UpTo(g, idx, gray, y, x);
      }
    }
  }

  /** `seg` is the part of the stack from `v` upwards, and no edge leads from it to the part below. */
  ghost predicate Detached<V(!new)>(g: Graph<V>, idx: map<V, nat>, below: set<V>, seg: set<V>, v: V)
    requires below + seg <= idx.Keys
  {
    && below !! seg && v in seg
    && (forall x :: x in below ==> idx[x] < idx[v])
    && (forall x :: x in seg && x != v ==> idx[v] < idx[x])
    && (forall x, y {:trigger Edge(g, x, y)} :: x in seg && Edge(g, x, y) ==> y in idx && y !in below)
  }

  /** Closing a call by popping a detached segment keeps the invariant. */
  lemma PopInv<V(!new)>(g: Graph<V>, idx: map<V, nat>, below: set<V>, seg: set<V>, gray: set<V>, v: V)
    requires Inv(g, idx, below + seg, gray + {v}) && gray <= below
    requires Detached(g, idx, below, seg, v)
    ensures Inv(g, idx, below, gray)
  {
    forall y | y in below
      ensures HasUp(g, idx, gray, y)
    {
      assert HasUp(g, idx, gray + {v}, y);
      var x :| UpTo(g, idx, gray + {v}, y, x);
      assert UpTo(g, idx, gray, y, x);
    }
  }

  /** A popped segment is exactly the strongly connected component of `v`. */
  lemma PoppedComponent<V(!new)>(g: Graph<V>, idx: map<V, nat>, below: set<V>, seg: set<V>, gray: set<V>, v: V)
    requires Inv(g, idx, below + seg, gray + {v}) && gray <= below
    requires Detached(g, idx, below, seg, v)
    ensures forall x :: x in seg <==> Mutual(g, v, x)
  {
    forall x
      ensures x in seg <==> Mutual(g, v, x)
    {
      if x in seg {
        SegmentMutual(g, idx, below, seg, gray, v, x);
      }
      if Mutual(g, v, x) {
        MutualInSegment(g, idx, below, seg, gray, v, x);
      }
    }
  }

  lemma SegmentMutual<V(!new)>(g: Graph<V>, idx: map<V, nat>, below: set<V>, seg: set<V>, gray: set<V>, v: V, x: V)
    requires Inv(g, idx, below + seg, gray + {v}) && gray <= below
    requires Detached(g, idx, below, seg, v) && x in seg
    ensures Mutual(g, v, x)
  {
    ReachRefl(g, v);
    assert HasUp(g, idx, gray + {v}, x);
    var u :| UpTo(g, idx, gray + {v}, x, u);
    ClosedUnderReach(g, idx.Keys - below, x, u);
  }

  lemma MutualInSegment<V(!new)>(g: Graph<V>, idx: map<V, nat>, below: set<V>, seg: set<V>, gray: set<V>, v: V, x: V)
    requires Inv(g, idx, below + seg, gray + {v}) && gray <= below
    requires Detached(g, idx, below, seg, v) && Mutual(g, v, x)
    ensures x in seg
  {
    ClosedUnderReach(g, idx.Keys - below, v, x);
    if x !in seg {
      ClosedUnderReach(g, idx.Keys - below - seg, x, v);
    }
  }

  // ---- The search itself.

  /** The stack holds numbered vertices in increasing order of their numbers. */
  ghost predicate Increasing<V>(s: seq<V>, idx: map<V, nat>) {
    && (forall x :: x in s ==> x in idx)
    && (forall i, j :: 0 <= i < j < |s| ==> idx[s[i]] < idx[s[j]])
  }

  /** Splitting an increasing stack at `v`. */
  lemma SplitStack<V>(s: seq<V>, below: seq<V>, idx: map<V, nat>, v: V)
    requires Increasing(s, idx) && below + [v] <= s
    ensures v !in below && v in s && Elems(below) <= Elems(s)
    ensures forall x :: x in below ==> x in idx && idx[x] < idx[v]
    ensures forall x :: x in s && x !in below && x != v ==> idx[v] < idx[x]
  {
    assert s[|below|] == v;
    assert forall k :: 0 <= k < |below| ==> s[k] == below[k];
    forall x | x in below
      ensures x in s && idx[x] < idx[v]
    {
      var i :| 0 <= i < |below| && below[i] == x;
      assert s[i] == x;
    }
    forall x | x in s && x !in below && x != v
      ensures idx[v] < idx[x]
    {
      var i :| 0 <= i < |s| && s[i] == x;
    }
  }

  /** `ret` holds the part of `full` from position `k` on, last element first. */
  ghost predicate Moved<V>(full: seq<V>, k: nat, ret: seq<V>) {
    k + |ret| == |full| && forall i :: 0 <= i < |ret| ==> ret[i] == full[|full| - 1 - i]
  }

  lemma PrefixIn<V>(a: seq<V>, b: seq<V>, s: seq<V>)
    requires a + b <= s
    ensures forall x :: x in a || x in b ==> x in s
  {
    forall x | x in a || x in b
      ensures x in s
    {
      assert x in a + b;
      var i :| 0 <= i < |a + b| && (a + b)[i] == x;
      assert s[i] == x;
    }
  }

  lemma IncreasingPrefix<V>(a: seq<V>, s: seq<V>, idx: map<V, nat>)
    requires a <= s && Increasing(s, idx)
    ensures Increasing(a, idx)
  {
    PrefixIn(a, [], s);
    assert forall i :: 0 <= i < |a| ==> a[i] == s[i];
  }

  lemma MovedSegment<V>(full: seq<V>, below: seq<V>, idx: map<V, nat>, v: V, ret: seq<V>)
    requires Increasing(full, idx) && below + [v] <= full && Moved(full, |below|, ret)
    ensures NoDup(ret) && Elems(ret) == Elems(full) - Elems(below)
  {
    var n := |full|;
    assert forall k :: |below| <= k < n ==> ret[n - 1 - k] == full[k];
    assert forall k :: 0 <= k < |below| ==> below[k] == full[k];
    forall x
      ensures x in Elems(ret) <==> x in Elems(full) - Elems(below)
    {
      if x in ret {
        var i :| 0 <= i < |ret| && ret[i] == x;
        assert full[n - 1 - i] == x;
        assert forall k :: 0 <= k < |below| ==> idx[full[k]] < idx[x];
      }
      if x in full && x !in below {
        var k :| 0 <= k < n && full[k] == x;
        assert ret[n - 1 - k] == x;
      }
    }
  }

  lemma OpenReach<V(!new)>(g: Graph<V>, gray: set<V>, v: V, w: V)
    requires forall x :: x in gray ==> Reach(g, x, v)
    requires Edge(g, v, w)
    ensures forall x :: x in gray + {v} ==> Reach(g, x, w)
  {
    ReachEdge(g, v, w);
    forall x | x in gray
      ensures Reach(g, x, w)
    {
      ReachTrans(g, x, v, w);
    }
  }

  // ---- In which order vertices are numbered

  /** A walk from `v` to `x` through vertices numbered no later than `x`. */
  ghost predicate EarlyWalk<V>(g: Graph<V>, idx: map<V, nat>, p: seq<V>, v: V, x: V) {
    PathFromTo(g, p, v, x) && x in idx && forall i :: 0 <= i < |p| ==> p[i] in idx && idx[p[i]] <= idx[x]
  }

  ghost predicate Early<V(!new)>(g: Graph<V>, idx: map<V, nat>, v: V, x: V) {
    exists p :: EarlyWalk(g, idx, p, v, x)
  }

  ghost predicate AllEarly<V(!new)>(g: Graph<V>, idx: map<V, nat>, root: V) {
    forall x {:trigger Early(g, idx, root, x)} :: x in idx ==> Early(g, idx, root, x)
  }

  /** The next vertex to be numbered is the root or a successor of a numbered one. */
  ghost predicate Next<V(!new)>(g: Graph<V>, idx: map<V, nat>, root: V, v: V) {
    v == root || exists u :: u in idx && Edge(g, u, v)
  }

  lemma EarlyNext<V(!new)>(g: Graph<V>, idx: map<V, nat>, n: nat, root: V, v: V)
    requires AllEarly(g, idx, root) && Next(g, idx, root, v) && v !in idx && forall x :: x in idx ==> idx[x] < n
    ensures AllEarly(g, idx[v := n], root)
  {
    var idx' := idx[v := n];
    forall x | x in idx'
      ensures Early(g, idx', root, x)
    {
      if x != v {
        assert Early(g, idx, root, x);
        var p :| EarlyWalk(g, idx, p, root, x);
        assert EarlyWalk(g, idx', p, root, x);
      } else if v == root {
        assert EarlyWalk(g, idx', [v], root, v);
      } else {
        var u :| u in idx && Edge(g, u, v);
        assert Early(g, idx, root, u);
        var p :| EarlyWalk(g, idx, p, root, u);
        assert EarlyWalk(g, idx', p + [v], root, v);
      }
    }
  }

  /** The first element has the greatest number. */
  ghost predicate FirstLatest<V>(s: seq<V>, idx: map<V, nat>) {
    forall i :: 0 < i < |s| ==> s[i] in idx && s[0] in idx && idx[s[i]] < idx[s[0]]
  }

  lemma MovedLatest<V>(full: seq<V>, k: nat, idx: map<V, nat>, ret: seq<V>)
    requires Increasing(full, idx) && Moved(full, k, ret)
    ensures FirstLatest(ret, idx)
  {
    assert forall j :: 0 <= j < |full| ==> full[j] in full;
  }

  /** `m` can be reached from `v` without passing `root`. */
  ghost predicate Around<V(!new)>(g: Graph<V>, v: V, m: V, root: V) {
    exists p :: PathFromTo(g, p, v, m) && root !in p
  }

  /** Every other vertex listed was numbered before the first, and so found without it. */
  lemma FirstLeavesRest<V(!new)>(g: Graph<V>, idx: map<V, nat>, v: V, ret: seq<V>, m: V)
    requires AllEarly(g, idx, v) && FirstLatest(ret, idx) && m in ret && m != ret[0]
    ensures Around(g, v, m, ret[0])
  {
    var i :| 0 <= i < |ret| && ret[i] == m;
    assert Early(g, idx, v, m);
    var p :| EarlyWalk(g, idx, p, v, m);
    assert ret[0] !in p;
  }

  /** The variables that `strong_connect` updates in place while it recurses. */
  class Search<V(==, !new)> {
    const g: Graph<V>
    ghost const root: V
    var indexes: map<V, nat>
    var lowlinks: map<V, nat>
    var index: nat
    var S: seq<V>

    constructor (g: Graph<V>, ghost root: V)
      requires DepGraph.Valid(g)
      ensures this.g == g && this.root == root && indexes == map[] && S == [] && index == 0 && Ok({})
      ensures AllEarly(g, indexes, root)
    {
      this.g, this.root := g, root;
      indexes, lowlinks, index, S := map[], map[], 0, [];
    }

    ghost predicate Ok(gray: set<V>)
      reads this
    {
      && (forall x, y {:trigger Edge(g, x, y)} :: Edge(g, x, y) ==> y in g.succs)
      && lowlinks.Keys == indexes.Keys
      && Increasing(S, indexes)
      && (forall x :: x in indexes ==> indexes[x] < index)
      && Inv(g, indexes, Elems(S), gray)
    }

    /** Edges from vertices stacked above `below`, `except` left out, do not reach under `low` in `below`. */
    ghost predicate LowBound(below: seq<V>, low: nat, except: set<V>)
      reads this
    {
      forall x, y {:trigger Edge(g, x, y)} ::
        x in S && x !in below && x !in except && y in below && Edge(g, x, y) ==> y in indexes && low <= indexes[y]
    }

    /** The low link of `w` is the number of a stacked vertex that `w` reaches. */
    ghost predicate LowWitness(w: V)
      reads this
    {
      w in lowlinks && exists y :: y in S && y in indexes && indexes[y] == lowlinks[w] && Reach(g, w, y)
    }

    /** The call on `v` is open on top of `below`, with the successors in `todo` not looked at yet. */
    ghost predicate Visiting(v: V, gray: set<V>, below: seq<V>, todo: set<V>)
      reads this
    {
      && Ok(gray + {v}) && v in g.succs && v in indexes
      && below + [v] <= S
      && lowlinks[v] <= indexes[v]
      && LowWitness(v)
      && LowBound(below, lowlinks[v], {v})
      && (forall y :: y in g.succs[v] && y !in todo ==> y in indexes && (y in below ==> lowlinks[v] <= indexes[y]))
    }

    /** Numbers are never taken back, and the low links of all but `except` stay. */
    twostate predicate Keeps(except: set<V>)
      reads this
    {
      && old(index) <= index
      && (forall x :: x in old(indexes) ==> x in indexes && indexes[x] == old(indexes[x]))
      && (forall x :: x in old(lowlinks) && x !in except ==> x in lowlinks && lowlinks[x] == old(lowlinks[x]))
    }

    method Open(v: V, ghost gray: set<V>)
      requires Ok(gray) && v in g.succs && v !in indexes
      requires AllEarly(g, indexes, root) && Next(g, indexes, root, v)
      requires forall x :: x in gray ==> Reach(g, x, v)
      modifies this
      ensures Visiting(v, gray, old(S), g.succs[v].Keys) && Keeps({})
      ensures indexes == old(indexes)[v := old(index)] && AllEarly(g, indexes, root)
    {
      EarlyNext(g, indexes, index, root, v);
      PushInv(g, indexes, Elems(S), gray, v, index);
      ghost var below := S;
      indexes := indexes[v := index];
      lowlinks := lowlinks[v := index];
      index := index + 1;
      S := S + [v];
      assert Elems(S) == Elems(below) + {v};
      ReachRefl(g, v);
    }

    method StrongConnect(v: V, ghost gray: set<V>) returns (ret: seq<V>)
      requires Ok(gray) && v in g.succs && v !in indexes
      requires AllEarly(g, indexes, root) && Next(g, indexes, root, v)
      requires forall x :: x in gray ==> Reach(g, x, v)
      modifies this
      decreases |g.succs.Keys - indexes.Keys|, 1
      ensures Ok(gray) && Keeps({}) && old(S) <= S
      ensures v in indexes && indexes[v] == old(index) && lowlinks[v] <= indexes[v]
      ensures LowBound(old(S), lowlinks[v], {})
      ensures lowlinks[v] < indexes[v] ==> v in S && ret == [] && LowWitness(v)
      ensures lowlinks[v] == indexes[v] ==> S == old(S) && NoDup(ret) && EndsWith(ret, v) && FirstLatest(ret, indexes)
      ensures lowlinks[v] == indexes[v] ==> forall x :: x in ret <==> Mutual(g, v, x)
      ensures AllEarly(g, indexes, root)
    {
      ghost var below := S;
      ghost var idx0 := indexes;
      assert v !in gray && gray <= Elems(below);
      Open(v, gray);
      SmallerSet(g.succs.Keys - indexes.Keys, g.succs.Keys - idx0.Keys);
      LookAll(v, gray, below);
      ret := Close(v, gray, below);
    }

    /** The loop over the successors of `v`. */
    method LookAll(v: V, ghost gray: set<V>, ghost below: seq<V>)
      requires v in g.succs && Visiting(v, gray, below, g.succs[v].Keys) && AllEarly(g, indexes, root)
      requires forall x :: x in gray ==> Reach(g, x, v)
      modifies this
      decreases |g.succs.Keys - indexes.Keys|, 3
      ensures Visiting(v, gray, below, {}) && Keeps({v})
      ensures AllEarly(g, indexes, root)
    {
      var todo := g.succs[v].Keys;
      while todo != {}
        invariant todo <= g.succs[v].Keys
        invariant Visiting(v, gray, below, todo) && Keeps({v})
        invariant AllEarly(g, indexes, root)
        invariant |g.succs.Keys - indexes.Keys| <= old(|g.succs.Keys - indexes.Keys|)
        decreases |todo|
      {
        var w :| w in todo;
        Look(v, gray, below, todo, w);
        todo := todo - {w};
      }
    }

    /** One round of the loop over the successors of `v`. */
    method Look(v: V, ghost gray: set<V>, ghost below: seq<V>, ghost todo: set<V>, w: V)
      requires Visiting(v, gray, below, todo) && w in todo && Edge(g, v, w) && AllEarly(g, indexes, root)
      requires forall x :: x in gray ==> Reach(g, x, v)
      modifies this
      decreases |g.succs.Keys - indexes.Keys|, 2
      ensures Visiting(v, gray, below, todo - {w}) && Keeps({v})
      ensures |g.succs.Keys - indexes.Keys| <= old(|g.succs.Keys - indexes.Keys|)
      ensures AllEarly(g, indexes, root)
    {
      if w !in indexes {
        LookNew(v, gray, below, todo, w);
      } else if w in S {
        PrefixIn(below, [v], S);
        ReachEdge(g, v, w);
        LowerLink(v, gray, below, todo, w, indexes[w], S);
      } else {
        PrefixIn(below, [v], S);
      }
    }

    /** A successor without a number: the recursive call, and then its low link. */
    method LookNew(v: V, ghost gray: set<V>, ghost below: seq<V>, ghost todo: set<V>, w: V)
      requires Visiting(v, gray, below, todo) && w in todo && Edge(g, v, w) && w !in indexes
      requires AllEarly(g, indexes, root)
      requires forall x :: x in gray ==> Reach(g, x, v)
      modifies this
      decreases |g.succs.Keys - indexes.Keys|, 2, 0
      ensures Visiting(v, gray, below, todo - {w}) && Keeps({v})
      ensures |g.succs.Keys - indexes.Keys| <= old(|g.succs.Keys - indexes.Keys|)
      ensures AllEarly(g, indexes, root)
    {
      PrefixIn(below, [v], S);
      OpenReach(g, gray, v, w);
      ghost var stacked := S;
      var _ := StrongConnect(w, gray + {v});
      NotLarger(g.succs.Keys - indexes.Keys, g.succs.Keys - old(indexes).Keys);
      ReachEdge(g, v, w);
      WitnessBack(v, w);
      LowerLink(v, gray, below, todo, w, lowlinks[w], stacked);
    }

    /** What `w` reaches, its predecessor `v` reaches too. */
    lemma WitnessBack(v: V, w: V)
      requires w in lowlinks && Reach(g, v, w)
      ensures LowWitness(w) ==> exists y :: y in S && y in indexes && indexes[y] == lowlinks[w] && Reach(g, v, y)
    {
      if LowWitness(w) {
        var y :| y in S && y in indexes && indexes[y] == lowlinks[w] && Reach(g, w, y);
        ReachTrans(g, v, w, y);
      }
    }

    /** Lowers the low link of `v` to `low`, which bounds the edges of everything stacked above `stacked`. */
    method LowerLink(v: V, ghost gray: set<V>, ghost below: seq<V>, ghost todo: set<V>, ghost w: V, low: nat,
        ghost stacked: seq<V>)
      requires Ok(gray + {v}) && v in g.succs && v in indexes && w in indexes
      requires below + [v] <= stacked <= S && lowlinks[v] <= indexes[v] && LowWitness(v)
      requires LowBound(stacked, low, {})
      requires forall x, y {:trigger Edge(g, x, y)} ::
        x in stacked && x !in below && x != v && y in below && Edge(g, x, y) ==>
          y in indexes && lowlinks[v] <= indexes[y]
      requires forall y :: y in g.succs[v] && y !in todo ==> y in indexes && (y in below ==> lowlinks[v] <= indexes[y])
      requires w in below ==> low <= indexes[w]
      requires low < lowlinks[v] ==> exists y :: y in S && y in indexes && indexes[y] == low && Reach(g, v, y)
      modifies this`lowlinks
      ensures indexes == old(indexes) && lowlinks.Keys == old(lowlinks).Keys && Keeps({v})
      ensures Visiting(v, gray, below, todo - {w})
    {
      assert below + [v] <= S;
      PrefixIn(below, [v], stacked);
      lowlinks := lowlinks[v := if lowlinks[v] < low then lowlinks[v] else low];
    }

    /** What follows the loop: pop the component of `v`, or leave it stacked. */
    method Close(v: V, ghost gray: set<V>, ghost below: seq<V>) returns (ret: seq<V>)
      requires Visiting(v, gray, below, {}) && v !in gray && gray <= Elems(below)
      modifies this`S
      ensures Ok(gray) && below <= S && indexes == old(indexes)
      ensures LowBound(below, lowlinks[v], {})
      ensures lowlinks[v] < indexes[v] ==> v in S && ret == [] && LowWitness(v)
      ensures lowlinks[v] == indexes[v] ==> S == below && NoDup(ret) && EndsWith(ret, v) && FirstLatest(ret, indexes)
      ensures lowlinks[v] == indexes[v] ==> forall x :: x in ret <==> Mutual(g, v, x)
    {
      SplitStack(S, below, indexes, v);
      ret := [];
      if lowlinks[v] == indexes[v] {
        ret := PopComponent(v, gray, below);
      } else {
        ghost var low :| low in S && low in indexes && indexes[low] == lowlinks[v] && Reach(g, v, low);
        StayInv(g, indexes, Elems(S), gray, v, low);
      }
    }

    method PopComponent(v: V, ghost gray: set<V>, ghost below: seq<V>) returns (ret: seq<V>)
      requires Visiting(v, gray, below, {}) && v !in gray && gray <= Elems(below)
      requires lowlinks[v] == indexes[v]
      modifies this`S
      ensures Ok(gray) && S == below && NoDup(ret) && EndsWith(ret, v) && FirstLatest(ret, indexes)
      ensures forall x :: x in ret <==> Mutual(g, v, x)
    {
      SplitStack(S, below, indexes, v);
      IncreasingPrefix(below, S, indexes);
      ghost var seg := Elems(S) - Elems(below);
      assert Elems(S) == Elems(below) + seg;
      assert Detached(g, indexes, Elems(below), seg, v);
      PopInv(g, indexes, Elems(below), seg, gray, v);
      PoppedComponent(g, indexes, Elems(below), seg, gray, v);
      ret := PopUntil(v, below);
      assert forall x :: x in ret <==> x in Elems(ret);
    }

    /** The loop that moves the top of the stack, down to `v`, into the result. */
    method PopUntil(v: V, ghost below: seq<V>) returns (ret: seq<V>)
      requires Increasing(S, indexes) && below + [v] <= S
      modifies this`S
      ensures S == below && NoDup(ret) && EndsWith(ret, v) && FirstLatest(ret, indexes)
      ensures Elems(ret) == Elems(old(S)) - Elems(below)
    {
      ghost var full := S;
      SplitStack(full, below, indexes, v);
      var w := S[|S| - 1];
      S := S[..|S| - 1];
      ret := [w];
      while w != v
        invariant |below| <= |S| < |full| && S == full[..|S|] && w == full[|S|]
        invariant Moved(full, |S|, ret) && EndsWith(ret, w)
        decreases |S|
      {
        assert full[|below|] == v;
        w := S[|S| - 1];
        S := S[..|S| - 1];
        ret := ret + [w];
      }
      assert full[|below|] == v;
      MovedSegment(full, below, indexes, v, ret);
      MovedLatest(full, |below|, indexes, ret);
    }
  }

  /**
   `find_scc`: a search from `v` over untouched variables returns, without repetition, exactly the vertices that are
   mutually reachable with `v`.  `v` comes last, and every other vertex can be reached from `v` without passing the
   first.
   */
  method FindScc<V(==, !new)>(g: Graph<V>, v: V) returns (ret: seq<V>)
    requires DepGraph.Valid(g) && v in g.succs
    ensures NoDup(ret) && EndsWith(ret, v) && forall x :: x in ret <==> Mutual(g, v, x)
    ensures forall m :: m in ret && m != ret[0] ==> Around(g, v, m, ret[0])
  {
    hide FirstLatest, Around, AllEarly;
    var search := new Search(g, v);
    ret := search.StrongConnect(v, {});
    forall m | m in ret && m != ret[0]
      ensures Around(g, v, m, ret[0])
    {
      FirstLeavesRest(g, search.indexes, v, ret, m);
    }
  }
}
