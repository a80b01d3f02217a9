/**
 The order in which the members of a strongly connected component are executed, stated on
 transaction ids alone: `scc` is the set of member ids and `imm` the set of immediate
 dependencies (relation 2 or more) as pairs of ids.
 */
module SortedSccSpec {
  import opened Options
  import opened Seqs

  // ---- The order

  /** Some member is an immediate predecessor of `c`. */
  ghost predicate HasInner(scc: set<nat>, imm: set<(nat, nat)>, c: nat) {
    exists p :: p in scc && (p, c) in imm
  }

  /** All immediate predecessors of `c`, members or not, are in `seen`. */
  ghost predicate Ready(imm: set<(nat, nat)>, seen: set<nat>, c: nat) {
    forall p :: (p, c) in imm ==> p in seen
  }

  ghost function Starts(scc: set<nat>, imm: set<(nat, nat)>): set<nat> {
    set c | c in scc && !HasInner(scc, imm, c)
  }

  /** The members that `v` releases when the members in `seen`, `v` included, are placed. */
  ghost function Released(scc: set<nat>, imm: set<(nat, nat)>, seen: set<nat>, v: nat): set<nat> {
    set c | c in scc && (v, c) in imm && Ready(imm, seen, c)
  }

  /** Placed and stacked members are exactly those that may be placed. */
  ghost predicate LoopInv(scc: set<nat>, imm: set<(nat, nat)>, stack: seq<nat>, out: seq<nat>) {
    && NoDup(stack) && NoDup(out) && Elems(stack) !! Elems(out) && Elems(stack) + Elems(out) <= scc
    && (forall c {:trigger HasInner(scc, imm, c)} {:trigger Ready(imm, Elems(out), c)} ::
          c in scc ==> (c in Elems(stack) + Elems(out) <==> !HasInner(scc, imm, c) || Ready(imm, Elems(out), c)))
    && (forall k :: 0 <= k < |out| && HasInner(scc, imm, out[k]) ==> Ready(imm, Elems(out[..k]), out[k]))
  }

  ghost function NextStack(scc: set<nat>, imm: set<(nat, nat)>, stack: seq<nat>, out: seq<nat>): seq<nat>
    requires stack != []
  {
    var v := stack[|stack| - 1];
    stack[..|stack| - 1] + Asc(Released(scc, imm, Elems(out + [v]), v))
  }

  /** The member about to be placed is new, and what it releases was neither placed nor stacked. */
  lemma StepFresh(scc: set<nat>, imm: set<(nat, nat)>, stack: seq<nat>, out: seq<nat>)
    requires LoopInv(scc, imm, stack, out) && stack != []
    ensures var v := stack[|stack| - 1];
            var rel := Released(scc, imm, Elems(out + [v]), v);
            && v in scc && v !in Elems(out) && v !in rel
            && Elems(out + [v]) == Elems(out) + {v}
            && Elems(stack) == Elems(stack[..|stack| - 1]) + {v} && v !in Elems(stack[..|stack| - 1])
            && rel !! Elems(stack) + Elems(out)
            && forall c :: c in rel ==> HasInner(scc, imm, c)
  {
    var v := stack[|stack| - 1];
    assert stack == stack[..|stack| - 1] + [v];
    ElemsAppend(stack[..|stack| - 1], [v]);
    ElemsAppend(out, [v]);
    forall c | c in Released(scc, imm, Elems(out + [v]), v)
      ensures HasInner(scc, imm, c) && !Ready(imm, Elems(out), c)
    {
      assert (v, c) in imm;
    }
  }

  lemma StepReady(scc: set<nat>, imm: set<(nat, nat)>, stack: seq<nat>, out: seq<nat>, c: nat)
    requires LoopInv(scc, imm, stack, out) && stack != [] && c in scc
    ensures var v := stack[|stack| - 1];
            c in Elems(stack) + Elems(out) + Released(scc, imm, Elems(out) + {v}, v) <==>
            !HasInner(scc, imm, c) || Ready(imm, Elems(out) + {v}, c)
  {
    var v := stack[|stack| - 1];
    assert v in Elems(stack);
    if Ready(imm, Elems(out) + {v}, c) && !Ready(imm, Elems(out), c) {
      assert (v, c) in imm;
    }
    if c in Released(scc, imm, Elems(out) + {v}, v) {
      assert HasInner(scc, imm, c);
    }
  }

  lemma StepOrder(scc: set<nat>, imm: set<(nat, nat)>, stack: seq<nat>, out: seq<nat>, k: nat)
    requires LoopInv(scc, imm, stack, out) && stack != [] && k <= |out|
    ensures var out' := out + [stack[|stack| - 1]];
            HasInner(scc, imm, out'[k]) ==> Ready(imm, Elems(out'[..k]), out'[k])
  {
    var v := stack[|stack| - 1];
    var out' := out + [v];
    assert v in Elems(stack);
    if k < |out| {
      assert out'[..k] == out[..k];
    } else {
      assert out'[..k] == out;
    }
  }

  lemma StepInv(scc: set<nat>, imm: set<(nat, nat)>, stack: seq<nat>, out: seq<nat>)
    requires LoopInv(scc, imm, stack, out) && stack != []
    ensures LoopInv(scc, imm, NextStack(scc, imm, stack, out), out + [stack[|stack| - 1]])
  {
    var v := stack[|stack| - 1];
    var rest := stack[..|stack| - 1];
    var out' := out + [v];
    var rel := Released(scc, imm, Elems(out'), v);
    StepFresh(scc, imm, stack, out);
    ElemsAppend(rest, Asc(rel));
    NoDupAppend(out, [v]);
    NoDupAppend(rest, Asc(rel));
    forall c | c in scc
      ensures c in Elems(rest + Asc(rel)) + Elems(out') <==> !HasInner(scc, imm, c) || Ready(imm, Elems(out'), c)
    {
      StepReady(scc, imm, stack, out, c);
    }
    forall k | 0 <= k < |out'|
      ensures HasInner(scc, imm, out'[k]) ==> Ready(imm, Elems(out'[..k]), out'[k])
    {
      StepOrder(scc, imm, stack, out, k);
    }
  }

  /** The topological sort: take the top of the stack, place it, stack what it releases. */
  ghost function Run(scc: set<nat>, imm: set<(nat, nat)>, stack: seq<nat>, out: seq<nat>): seq<nat>
    requires LoopInv(scc, imm, stack, out)
    decreases scc - Elems(out)
  {
    if stack == [] then out else
      StepInv(scc, imm, stack, out);
      StepFresh(scc, imm, stack, out);
      Run(scc, imm, NextStack(scc, imm, stack, out), out + [stack[|stack| - 1]])
  }

  lemma InitInv(scc: set<nat>, imm: set<(nat, nat)>)
    ensures LoopInv(scc, imm, Reverse(Asc(Starts(scc, imm))), [])
  {
    var a := Asc(Starts(scc, imm));
    var r := Reverse(a);
    forall x
      ensures x in r <==> x in a
    {
      if x in a {
        var i :| 0 <= i < |a| && a[i] == x;
        assert r[|a| - 1 - i] == x;
      }
    }
    assert Elems(r) == Elems(a);
    forall c | c in scc && HasInner(scc, imm, c)
      ensures !Ready(imm, {}, c)
    {
    }
    assert Elems<nat>([]) == {};
  }

  /** What `sorted_scc` returns, or None where one of its checks fails. */
  ghost function Order(scc: set<nat>, imm: set<(nat, nat)>): Option<seq<nat>> {
    if Starts(scc, imm) == {} then None else
      InitInv(scc, imm);
      var out := Run(scc, imm, Reverse(Asc(Starts(scc, imm))), []);
      if |out| == |scc| then Some(out) else None
  }

  // ---- What the order promises

  lemma {:induction false} RunFinal(scc: set<nat>, imm: set<(nat, nat)>, stack: seq<nat>, out: seq<nat>)
    requires LoopInv(scc, imm, stack, out)
    ensures LoopInv(scc, imm, [], Run(scc, imm, stack, out))
    decreases scc - Elems(out)
  {
    if stack != [] {
      StepInv(scc, imm, stack, out);
      StepFresh(scc, imm, stack, out);
      RunFinal(scc, imm, NextStack(scc, imm, stack, out), out + [stack[|stack| - 1]]);
    }
  }

  /** The placement that `Order` judges, complete or not. */
  ghost function Placed(scc: set<nat>, imm: set<(nat, nat)>): (out: seq<nat>)
    ensures LoopInv(scc, imm, [], out)
  {
    InitInv(scc, imm);
    RunFinal(scc, imm, Reverse(Asc(Starts(scc, imm))), []);
    Run(scc, imm, Reverse(Asc(Starts(scc, imm))), [])
  }

  lemma PlacedMembers(scc: set<nat>, imm: set<(nat, nat)>)
    ensures var out := Placed(scc, imm);
            NoDup(out) && Elems(out) <= scc && (|out| == |scc| <==> Elems(out) == scc)
  {
    var out := Placed(scc, imm);
    assert Elems<nat>([]) == {};
    NoDupSize(out);
    if |out| == |scc| && Elems(out) != scc {
      SmallerSet(Elems(out), scc);
    }
  }

  /** A returned order holds every member exactly once. */
  lemma OrderMembers(scc: set<nat>, imm: set<(nat, nat)>)
    requires Order(scc, imm).Some?
    ensures NoDup(Order(scc, imm).value) && Elems(Order(scc, imm).value) == scc
  {
    PlacedMembers(scc, imm);
  }

  /** A returned order puts every member after all its immediate predecessors in the component. */
  lemma OrderTopological(scc: set<nat>, imm: set<(nat, nat)>, i: nat, j: nat)
    requires Order(scc, imm).Some? && i < |Order(scc, imm).value| && j < |Order(scc, imm).value|
    requires (Order(scc, imm).value[i], Order(scc, imm).value[j]) in imm
    ensures i < j
  {
    var out := Placed(scc, imm);
    PlacedMembers(scc, imm);
    assert out[i] in Elems(out);
    assert HasInner(scc, imm, out[j]);
    assert out[i] in Elems(out[..j]);
    var k :| 0 <= k < j && out[..j][k] == out[i];
  }

  // ---- How ties are broken

  /** `x` comes before `y`. */
  ghost predicate Earlier(out: seq<nat>, x: nat, y: nat) {
    exists i, j :: 0 <= i < j < |out| && out[i] == x && out[j] == y
  }

  /** Of two stacked members the upper one is placed first. */
  lemma {:induction false} UpperFirst(
      scc: set<nat>, imm: set<(nat, nat)>, stack: seq<nat>, out: seq<nat>, i: nat, j: nat)
    requires LoopInv(scc, imm, stack, out) && i < j < |stack|
    ensures Earlier(Run(scc, imm, stack, out), stack[j], stack[i])
    decreases scc - Elems(out)
  {
    var n := |stack| - 1;
    var v, next := stack[n], NextStack(scc, imm, stack, out);
    StepInv(scc, imm, stack, out);
    StepFresh(scc, imm, stack, out);
    assert next[i] == stack[i];
    if j < n {
      assert next[j] == stack[j];
      UpperFirst(scc, imm, next, out + [v], i, j);
    } else {
      PlacedLater(scc, imm, next, out + [v], i);
      var run := Run(scc, imm, next, out + [v]);
      var k :| |out + [v]| <= k < |run| && run[k] == next[i];
      assert run[|out|] == v;
    }
  }

  lemma {:induction false} PlacedLater(scc: set<nat>, imm: set<(nat, nat)>, stack: seq<nat>, out: seq<nat>, i: nat)
    requires LoopInv(scc, imm, stack, out)
    ensures out <= Run(scc, imm, stack, out)
    ensures i < |stack| ==>
      exists k :: |out| <= k < |Run(scc, imm, stack, out)| && Run(scc, imm, stack, out)[k] == stack[i]
    decreases scc - Elems(out)
  {
    if stack != [] {
      var n := |stack| - 1;
      var v, next := stack[n], NextStack(scc, imm, stack, out);
      StepInv(scc, imm, stack, out);
      StepFresh(scc, imm, stack, out);
      PlacedLater(scc, imm, next, out + [v], i);
      var run := Run(scc, imm, next, out + [v]);
      assert run == Run(scc, imm, stack, out) && run[|out|] == v;
      assert i < n ==> next[i] == stack[i];
    }
  }

  /** The stack from which the member at place `k` was taken. */
  lemma {:induction false} StackAt(scc: set<nat>, imm: set<(nat, nat)>, stack: seq<nat>, out: seq<nat>, k: nat)
      returns (at: seq<nat>)
    requires LoopInv(scc, imm, stack, out) && |out| <= k < |Run(scc, imm, stack, out)|
    ensures var run := Run(scc, imm, stack, out);
      LoopInv(scc, imm, at, run[..k]) && at != [] && at[|at| - 1] == run[k] && Run(scc, imm, at, run[..k]) == run
    decreases scc - Elems(out)
  {
    var run := Run(scc, imm, stack, out);
    PlacedLater(scc, imm, stack, out, 0);
    if k == |out| {
      at := stack;
      StepInv(scc, imm, stack, out);
      PlacedLater(scc, imm, NextStack(scc, imm, stack, out), out + [stack[|stack| - 1]], 0);
      assert run[..k] == out;
    } else {
      StepInv(scc, imm, stack, out);
      StepFresh(scc, imm, stack, out);
      at := StackAt(scc, imm, NextStack(scc, imm, stack, out), out + [stack[|stack| - 1]], k);
    }
  }

  /** Members without an immediate predecessor in the component come in the order of their ids. */
  lemma StartsAscend(scc: set<nat>, imm: set<(nat, nat)>, a: nat, b: nat)
    requires Order(scc, imm).Some? && a in scc && b in scc && a < b
    requires !HasInner(scc, imm, a) && !HasInner(scc, imm, b)
    ensures Earlier(Order(scc, imm).value, a, b)
  {
    hide LoopInv, Earlier, HasInner, Run;
    var up := Asc(Starts(scc, imm));
    assert a in Elems(up) && b in Elems(up);
    var i :| 0 <= i < |up| && up[i] == a;
    var j :| 0 <= j < |up| && up[j] == b;
    var stack := Reverse(up);
    InitInv(scc, imm);
    assert stack[|up| - 1 - i] == a && stack[|up| - 1 - j] == b;
    UpperFirst(scc, imm, stack, [], |up| - 1 - j, |up| - 1 - i);
  }

  lemma ReleasedTogether(scc: set<nat>, imm: set<(nat, nat)>, stack: seq<nat>, out: seq<nat>, c: nat, d: nat)
    requires LoopInv(scc, imm, stack, out) && stack != [] && c < d
    requires var v := stack[|stack| - 1]; {c, d} <= Released(scc, imm, Elems(out + [v]), v)
    ensures Earlier(Run(scc, imm, stack, out), d, c)
  {
    hide LoopInv, Earlier, Released;
    var n := |stack| - 1;
    var rel := Asc(Released(scc, imm, Elems(out + [stack[n]]), stack[n]));
    assert c in Elems(rel) && d in Elems(rel);
    var i :| 0 <= i < |rel| && rel[i] == c;
    var j :| 0 <= j < |rel| && rel[j] == d;
    var next := NextStack(scc, imm, stack, out);
    StepInv(scc, imm, stack, out);
    assert next[n + i] == c && next[n + j] == d;
    UpperFirst(scc, imm, next, out + [stack[n]], n + i, n + j);
  }

  /** Of two members that wait for the same last predecessor, the one with the greater id comes first. */
  lemma SiblingsDescend(scc: set<nat>, imm: set<(nat, nat)>, k: nat, c: nat, d: nat)
    requires Order(scc, imm).Some? && k < |Order(scc, imm).value| && c in scc && d in scc && c < d
    requires var out := Order(scc, imm).value;
      && (out[k], c) in imm && Ready(imm, Elems(out[..k + 1]), c)
      && (out[k], d) in imm && Ready(imm, Elems(out[..k + 1]), d)
    ensures Earlier(Order(scc, imm).value, d, c)
  {
    hide LoopInv, Earlier, Ready, Run;
    var out := Order(scc, imm).value;
    InitInv(scc, imm);
    var at := StackAt(scc, imm, Reverse(Asc(Starts(scc, imm))), [], k);
    assert out[..k] + [out[k]] == out[..k + 1];
    ReleasedTogether(scc, imm, at, out[..k], c, d);
  }

  // ---- Exactly when an order is returned

  /** A walk of at least one immediate dependency between members. */
  ghost predicate InnerWalk(scc: set<nat>, imm: set<(nat, nat)>, w: seq<nat>) {
    && |w| >= 2
    && (forall i :: 0 <= i < |w| ==> w[i] in scc)
    && (forall i, j :: 0 <= i < j < |w| && j == i + 1 ==> (w[i], w[j]) in imm)
  }

  /** The immediate dependencies between members have no cycle. */
  ghost predicate Acyclic(scc: set<nat>, imm: set<(nat, nat)>) {
    forall w :: InnerWalk(scc, imm, w) ==> w[0] != w[|w| - 1]
  }

  /** No member has immediate predecessors both inside and outside the component. */
  ghost predicate NoMixed(scc: set<nat>, imm: set<(nat, nat)>) {
    forall p, c :: c in scc && HasInner(scc, imm, c) && (p, c) in imm ==> p in scc
  }

  lemma {:induction false} WalkForward(scc: set<nat>, imm: set<(nat, nat)>, out: seq<nat>, w: seq<nat>, i: nat, j: nat)
    requires InnerWalk(scc, imm, w) && NoDup(out) && Elems(out) == scc
    requires forall a, b :: 0 <= a < |out| && 0 <= b < |out| && (out[a], out[b]) in imm ==> a < b
    requires i < |out| && j < |out| && out[i] == w[0] && out[j] == w[|w| - 1]
    ensures i < j
    decreases |w|
  {
    if |w| == 2 {
      assert (w[0], w[1]) in imm;
    } else {
      assert (w[0], w[1]) in imm;
      assert w[1] in Elems(out);
      var k :| 0 <= k < |out| && out[k] == w[1];
      WalkForward(scc, imm, out, w[1..], k, j);
    }
  }

  /** Going back along predecessors inside `r`, `n` times. */
  lemma {:induction false} BackWalk(r: set<nat>, imm: set<(nat, nat)>, n: nat) returns (w: seq<nat>)
    requires r != {} && forall c :: c in r ==> HasInner(r, imm, c)
    ensures |w| == n + 1 && (forall i :: 0 <= i < |w| ==> w[i] in r)
    ensures forall i, j :: 0 <= i < j < |w| && j == i + 1 ==> (w[i], w[j]) in imm
  {
    if n == 0 {
      var c :| c in r;
      w := [c];
    } else {
      var w' := BackWalk(r, imm, n - 1);
      assert HasInner(r, imm, w'[0]);
      var p :| p in r && (p, w'[0]) in imm;
      w := [p] + w';
    }
  }

  lemma CycleExists(scc: set<nat>, imm: set<(nat, nat)>, r: set<nat>)
    requires r != {} && r <= scc && forall c :: c in r ==> HasInner(r, imm, c)
    ensures !Acyclic(scc, imm)
  {
    var w := BackWalk(r, imm, |r|);
    if NoDup(w) {
      NoDupSize(w);
      NotLarger(Elems(w), r);
    }
    var i, j :| 0 <= i < j < |w| && w[i] == w[j];
    var cyc := w[i..j + 1];
    assert InnerWalk(scc, imm, cyc);
    assert cyc[0] == cyc[|cyc| - 1];
  }

  lemma PlacedAll(scc: set<nat>, imm: set<(nat, nat)>)
    requires Acyclic(scc, imm) && NoMixed(scc, imm)
    ensures Elems(Placed(scc, imm)) == scc
  {
    var out := Placed(scc, imm);
    var r := scc - Elems(out);
    assert Elems<nat>([]) == {};
    forall c | c in r
      ensures HasInner(r, imm, c)
    {
      assert HasInner(scc, imm, c) && !Ready(imm, Elems(out), c);
      var p :| (p, c) in imm && p !in Elems(out);
      assert p in r;
    }
    if r != {} {
      CycleExists(scc, imm, r);
    }
  }

  /**
   `sorted_scc` passes its checks on a component if and only if the immediate dependencies
   inside the component are acyclic and no member mixes inner and outer ones.
   */
  lemma OrderDefined(scc: set<nat>, imm: set<(nat, nat)>)
    requires scc != {}
    ensures Order(scc, imm).Some? <==> Acyclic(scc, imm) && NoMixed(scc, imm)
  {
    PlacedMembers(scc, imm);
    var out := Placed(scc, imm);
    assert Elems<nat>([]) == {};
    if Order(scc, imm).Some? {
      forall w | InnerWalk(scc, imm, w)
        ensures w[0] != w[|w| - 1]
      {
        assert w[0] in Elems(out) && w[|w| - 1] in Elems(out);
        var i :| 0 <= i < |out| && out[i] == w[0];
        var j :| 0 <= j < |out| && out[j] == w[|w| - 1];
        forall a, b | 0 <= a < |out| && 0 <= b < |out| && (out[a], out[b]) in imm
          ensures a < b
        {
          OrderTopological(scc, imm, a, b);
        }
        WalkForward(scc, imm, out, w, i, j);
      }
      forall p, c | c in scc && HasInner(scc, imm, c) && (p, c) in imm
        ensures p in scc
      {
        assert Ready(imm, Elems(out), c);
      }
    } else if Acyclic(scc, imm) && NoMixed(scc, imm) {
      PlacedAll(scc, imm);
    }
  }
}
