/**
 * When the merged cursor gives its rows in key order.  The merge compares row addresses
 * (rococo-dst/memdb/txn.cc:874), so the order that a query asks for depends on where the rows lie in memory.
 */
module MergeOrder {
  import opened Seqs
  import opened IndexSpec
  import opened KeyOrder
  import opened StagedOrder
  import opened MergedView

  /** The order asked for: by these keys, ascending or descending. */
  datatype Order = Order(keys: map<nat, Key>, back: bool)

  /** Row `x` must come before row `y`. */
  predicate Before(o: Order, x: nat, y: nat) {
    x in o.keys && y in o.keys && if o.back then KeyLess(o.keys[y], o.keys[x]) else KeyLess(o.keys[x], o.keys[y])
  }

  ghost predicate InOrder(o: Order, s: seq<nat>) {
    forall i, j :: 0 <= i < j < |s| ==> !Before(o, s[j], s[i])
  }

  function Max(x: int, y: int): int {
    if x < y then y else x
  }

  /** The greatest of `p` and the addresses up to place `i`. */
  function TopFrom(p: int, s: seq<nat>, i: nat): int
    requires i < |s|
    decreases i
  {
    if i == 0 then Max(p, s[0]) else TopFrom(Max(p, s[0]), s[1..], i - 1)
  }

  function Top(s: seq<nat>, i: nat): int
    requires i < |s|
  {
    TopFrom(-1, s, i)
  }

  /** The rows at `i` and `j` come out in the order asked for. */
  ghost predicate PairFits(o: Order, base: seq<nat>, staged: seq<nat>, p: int, q: int, i: nat, j: nat)
    requires i < |base| && j < |staged|
  {
    && (Before(o, base[i], staged[j]) ==> TopFrom(p, base, i) < TopFrom(q, staged, j))
    && (Before(o, staged[j], base[i]) ==> TopFrom(q, staged, j) <= TopFrom(p, base, i))
  }

  ghost predicate AllFitFrom(o: Order, base: seq<nat>, staged: seq<nat>, p: int, q: int) {
    forall i, j :: 0 <= i < |base| && 0 <= j < |staged| ==> PairFits(o, base, staged, p, q, i, j)
  }

  /** Of every two rows from different lists, the one to come first has only smaller addresses up to it. */
  ghost predicate AddressesFit(o: Order, base: seq<nat>, staged: seq<nat>) {
    forall i, j :: 0 <= i < |base| && 0 <= j < |staged| ==>
      && (Before(o, base[i], staged[j]) ==> Top(base, i) < Top(staged, j))
      && (Before(o, staged[j], base[i]) ==> Top(staged, j) <= Top(base, i))
  }

  lemma {:induction false} TopAtLeast(p: int, s: seq<nat>, i: nat)
    requires i < |s|
    ensures Max(p, s[0]) <= TopFrom(p, s, i)
    decreases i
  {
    if i > 0 {
      TopAtLeast(Max(p, s[0]), s[1..], i - 1);
    }
  }

  /** One row put in front of a list that is in order. */
  lemma InOrderFront(o: Order, x: nat, s: seq<nat>)
    ensures InOrder(o, [x] + s) <==> InOrder(o, s) && forall y :: y in s ==> !Before(o, y, x)
  {
    var t := [x] + s;
    if InOrder(o, t) {
      forall i, j | 0 <= i < j < |s|
        ensures !Before(o, s[j], s[i])
      {
        assert t[i + 1] == s[i] && t[j + 1] == s[j];
      }
      forall y | y in s
        ensures !Before(o, y, x)
      {
        var j :| 0 <= j < |s| && s[j] == y;
        assert t[j + 1] == y && t[0] == x;
      }
    }
  }

  lemma {:induction false} MergeMembers(base: seq<nat>, staged: seq<nat>, x: nat)
    ensures x in Merge(base, staged) <==> x in base || x in staged
    decreases |base| + |staged|
  {
    if base != [] && staged != [] {
      if base[0] < staged[0] {
        MergeMembers(base[1..], staged, x);
        assert base == [base[0]] + base[1..];
      } else {
        MergeMembers(base, staged[1..], x);
        assert staged == [staged[0]] + staged[1..];
      }
    }
  }

  /** `p` and `q` are the greatest addresses taken from each list: neither list has run ahead of the other. */
  predicate Balanced(base: seq<nat>, staged: seq<nat>, p: int, q: int) {
    && (staged != [] ==> p < Max(q, staged[0]))
    && (base != [] ==> q <= Max(p, base[0]))
  }

  /** The head of `base` goes first: it fits if and only if no staged row had to come before it. */
  lemma BaseFirst(o: Order, base: seq<nat>, staged: seq<nat>, p: int, q: int)
    requires base != [] && staged != [] && base[0] < staged[0] && Balanced(base, staged, p, q)
    ensures Balanced(base[1..], staged, Max(p, base[0]), q)
    ensures AllFitFrom(o, base, staged, p, q) <==>
      AllFitFrom(o, base[1..], staged, Max(p, base[0]), q) && forall y :: y in staged ==> !Before(o, y, base[0])
  {
    var p', rest := Max(p, base[0]), base[1..];
    forall j | 0 <= j < |staged|
      ensures PairFits(o, base, staged, p, q, 0, j) <==> !Before(o, staged[j], base[0])
    {
      TopAtLeast(q, staged, j);
    }
    assert forall i, j :: 0 <= i < |rest| && 0 <= j < |staged| ==>
      PairFits(o, rest, staged, p', q, i, j) == PairFits(o, base, staged, p, q, i + 1, j);
    if AllFitFrom(o, rest, staged, p', q) && forall y :: y in staged ==> !Before(o, y, base[0]) {
      forall i, j | 0 <= i < |base| && 0 <= j < |staged|
        ensures PairFits(o, base, staged, p, q, i, j)
      {
        assert i > 0 ==> PairFits(o, rest, staged, p', q, i - 1, j);
      }
    }
  }

  lemma StagedFirst(o: Order, base: seq<nat>, staged: seq<nat>, p: int, q: int)
    requires base != [] && staged != [] && base[0] >= staged[0] && Balanced(base, staged, p, q)
    ensures Balanced(base, staged[1..], p, Max(q, staged[0]))
    ensures AllFitFrom(o, base, staged, p, q) <==>
      AllFitFrom(o, base, staged[1..], p, Max(q, staged[0])) && forall x :: x in base ==> !Before(o, x, staged[0])
  {
    var q', rest := Max(q, staged[0]), staged[1..];
    forall i | 0 <= i < |base|
      ensures PairFits(o, base, staged, p, q, i, 0) <==> !Before(o, base[i], staged[0])
    {
      TopAtLeast(p, base, i);
    }
    assert forall i, j :: 0 <= i < |base| && 0 <= j < |rest| ==>
      PairFits(o, base, rest, p, q', i, j) == PairFits(o, base, staged, p, q, i, j + 1);
    if AllFitFrom(o, base, rest, p, q') && forall x :: x in base ==> !Before(o, x, staged[0]) {
      forall i, j | 0 <= i < |base| && 0 <= j < |staged|
        ensures PairFits(o, base, staged, p, q, i, j)
      {
        assert j > 0 ==> PairFits(o, base, rest, p, q', i, j - 1);
      }
    }
  }

  lemma {:induction false} MergeFrom(o: Order, base: seq<nat>, staged: seq<nat>, p: int, q: int)
    requires InOrder(o, base) && InOrder(o, staged) && Balanced(base, staged, p, q)
    ensures InOrder(o, Merge(base, staged)) <==> AllFitFrom(o, base, staged, p, q)
    decreases |base| + |staged|
  {
    hide Before, PairFits, Balanced;
    if base != [] && staged != [] {
      assert base == [base[0]] + base[1..] && staged == [staged[0]] + staged[1..];
      if base[0] < staged[0] {
        var out := Merge(base[1..], staged);
        InOrderFront(o, base[0], base[1..]);
        BaseFirst(o, base, staged, p, q);
        MergeFrom(o, base[1..], staged, Max(p, base[0]), q);
        InOrderFront(o, base[0], out);
        forall y
          ensures y in out <==> y in base[1..] || y in staged
        {
          MergeMembers(base[1..], staged, y);
        }
      } else {
        var out := Merge(base, staged[1..]);
        InOrderFront(o, staged[0], staged[1..]);
        StagedFirst(o, base, staged, p, q);
        MergeFrom(o, base, staged[1..], p, Max(q, staged[0]));
        InOrderFront(o, staged[0], out);
        forall y
          ensures y in out <==> y in base || y in staged[1..]
        {
          MergeMembers(base, staged[1..], y);
        }
      }
    }
  }

  /** Two lists in order merge into one in order if and only if their addresses fit. */
  lemma MergeInOrder(o: Order, base: seq<nat>, staged: seq<nat>)
    requires InOrder(o, base) && InOrder(o, staged)
    ensures InOrder(o, Merge(base, staged)) <==> AddressesFit(o, base, staged)
  {
    MergeFrom(o, base, staged, -1, -1);
    assert forall i, j :: 0 <= i < |base| && 0 <= j < |staged| ==>
      (PairFits(o, base, staged, -1, -1, i, j) <==>
         && (Before(o, base[i], staged[j]) ==> Top(base, i) < Top(staged, j))
         && (Before(o, staged[j], base[i]) ==> Top(staged, j) <= Top(base, i)));
  }

  // ---- The lists of a query

  lemma {:induction false} KeptMembers(base: seq<nat>, t: nat, removes: set<(nat, nat)>, x: nat)
    ensures x in Kept(base, t, removes) ==> x in base
  {
    if base != [] {
      KeptMembers(base[1..], t, removes, x);
    }
  }

  /** Leaving rows out keeps the order. */
  lemma {:induction false} KeptInOrder(o: Order, base: seq<nat>, t: nat, removes: set<(nat, nat)>)
    requires InOrder(o, base)
    ensures InOrder(o, Kept(base, t, removes))
  {
    hide Before;
    if base != [] {
      var rest := Kept(base[1..], t, removes);
      assert base == [base[0]] + base[1..];
      InOrderFront(o, base[0], base[1..]);
      KeptInOrder(o, base[1..], t, removes);
      InOrderFront(o, base[0], rest);
      forall y | y in rest
        ensures y in base[1..]
      {
        KeptMembers(base[1..], t, removes, y);
      }
    }
  }

  lemma ReverseInOrder(keys: map<nat, Key>, s: seq<nat>)
    requires InOrder(Order(keys, false), s)
    ensures InOrder(Order(keys, true), Reverse(s))
  {
  }

  /** All keys have the kinds of `p`. */
  ghost predicate OneKind(o: Order, p: Key) {
    forall x :: x in o.keys ==> SameKinds(o.keys[x], p)
  }

  /** What is not before the first row that `r` precedes is not before `r`. */
  lemma NotBefore(o: Order, p: Key, r: nat, x: nat, y: nat)
    requires OneKind(o, p) && Before(o, r, x) && !Before(o, y, x)
    ensures !Before(o, y, r)
  {
    hide Cmp, SameKinds;
    if y in o.keys {
      var proto := map[0 := p];
      var a, b, c := Pair(0, RowKey(o.keys[r])), Pair(0, RowKey(o.keys[x])), Pair(0, RowKey(o.keys[y]));
      PairOrder(proto, a, b, c);
      PairOrder(proto, c, b, a);
      PairOrder(proto, b, a, b);
    }
  }

  lemma PlacedOrder(o: Order, p: Key, s: seq<nat>, k: nat, r: nat)
    requires InOrder(o, s) && OneKind(o, p) && k <= |s|
    requires forall i :: 0 <= i < k ==> !Before(o, r, s[i])
    requires k < |s| ==> Before(o, r, s[k])
    ensures InOrder(o, s[..k] + [r] + s[k..])
  {
    hide Before;
    var t := s[..k] + [r] + s[k..];
    forall i, j | 0 <= i < j < |t|
      ensures !Before(o, t[j], t[i])
    {
      if i == k {
        assert j == k + 1 ==> !Before(o, s[k], s[k]) by { NotItself(o, p, s[k]); }
        NotBefore(o, p, r, s[k], s[j - 1]);
      }
    }
  }

  lemma NotItself(o: Order, p: Key, x: nat)
    requires OneKind(o, p)
    ensures !Before(o, x, x)
  {
    hide Cmp, SameKinds;
    if x in o.keys {
      var n := Pair(0, RowKey(o.keys[x]));
      PairOrder(map[0 := p], n, n, n);
    }
  }

  /** A row's place in a list that is in order, behind those it does not precede. */
  method PlaceFor(o: Order, s: seq<nat>, r: nat, ghost p: Key) returns (k: nat)
    requires InOrder(o, s) && OneKind(o, p)
    ensures k <= |s| && InOrder(o, s[..k] + [r] + s[k..])
  {
    hide Before;
    k := 0;
    while k < |s| && !Before(o, r, s[k])
      invariant k <= |s| && forall i :: 0 <= i < k ==> !Before(o, r, s[i])
    {
      k := k + 1;
    }
    PlacedOrder(o, p, s, k, r);
  }
}
