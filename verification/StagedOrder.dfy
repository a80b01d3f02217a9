/**
 * The order of the staged inserts of a transaction: by table, then by row key, with two markers below and above every
 * row of a table (rococo-dst/memdb/txn.cc:238-258), and the slices that range queries take of them.
 */
module StagedOrder {
  import opened IndexSpec
  import opened KeyOrder

  datatype Bound = RowMin | RowMax | RowKey(key: Key)

  datatype Pair = Pair(table: nat, bound: Bound)

  predicate KeyLess(a: Key, b: Key) {
    SameKinds(a, b) && Cmp(a, b) < 0
  }

  predicate LessPair(a: Pair, b: Pair) {
    if a.table != b.table then a.table < b.table
    else if a.bound.RowMin? then !b.bound.RowMin?
    else if a.bound.RowMax? || b.bound.RowMin? then false
    else if b.bound.RowMax? then true
    else KeyLess(a.bound.key, b.bound.key)
  }

  /** `proto` has for each table a key with the kinds of its key columns. */
  ghost predicate Fits(proto: map<nat, Key>, p: Pair) {
    p.bound.RowKey? ==> p.table in proto && SameKinds(p.bound.key, proto[p.table])
  }

  lemma KeyKinds(a: Key, b: Key, p: Key)
    requires SameKinds(a, p) && SameKinds(b, p)
    ensures SameKinds(a, b)
  {
  }

  /** Not being greater is transitive and total. */
  lemma PairOrder(proto: map<nat, Key>, a: Pair, b: Pair, c: Pair)
    requires Fits(proto, a) && Fits(proto, b) && Fits(proto, c)
    ensures LessPair(a, b) ==> !LessPair(b, a)
    ensures !LessPair(b, a) && !LessPair(c, b) ==> !LessPair(c, a)
  {
    hide Cmp, SameKinds;
    if a.bound.RowKey? && b.bound.RowKey? && a.table == b.table {
      var p := proto[a.table];
      KeyKinds(a.bound.key, b.bound.key, p);
      KeyKinds(b.bound.key, a.bound.key, p);
      KeyKinds(a.bound.key, a.bound.key, p);
      KeysOrdered(a.bound.key, b.bound.key, a.bound.key);
      if c.bound.RowKey? && c.table == a.table {
        KeyKinds(b.bound.key, c.bound.key, p);
        KeyKinds(c.bound.key, b.bound.key, p);
        KeyKinds(c.bound.key, a.bound.key, p);
        KeyKinds(a.bound.key, c.bound.key, p);
        KeysOrdered(a.bound.key, b.bound.key, c.bound.key);
        KeysOrdered(b.bound.key, c.bound.key, b.bound.key);
        KeysOrdered(a.bound.key, c.bound.key, a.bound.key);
      }
    }
  }

  ghost predicate Ordered(ps: seq<Pair>) {
    forall i, j :: 0 <= i < j < |ps| ==> !LessPair(ps[j], ps[i])
  }

  ghost predicate AllFit(proto: map<nat, Key>, ps: seq<Pair>) {
    forall i :: 0 <= i < |ps| ==> Fits(proto, ps[i])
  }

  /** The first place not below `n`. */
  function LowerBound(ps: seq<Pair>, n: Pair): (k: nat)
    ensures k <= |ps| && (k < |ps| ==> !LessPair(ps[k], n))
    ensures forall i :: 0 <= i < k ==> LessPair(ps[i], n)
  {
    if ps == [] || !LessPair(ps[0], n) then 0 else 1 + LowerBound(ps[1..], n)
  }

  /** The first place above `n`. */
  function UpperBound(ps: seq<Pair>, n: Pair): (k: nat)
    ensures k <= |ps| && (k < |ps| ==> LessPair(n, ps[k]))
    ensures forall i :: 0 <= i < k ==> !LessPair(n, ps[i])
  {
    if ps == [] || LessPair(n, ps[0]) then 0 else 1 + UpperBound(ps[1..], n)
  }

  /** In an ordered list the bounds split it in two. */
  lemma BoundsSplit(proto: map<nat, Key>, ps: seq<Pair>, n: Pair, i: nat)
    requires Ordered(ps) && AllFit(proto, ps) && Fits(proto, n) && i < |ps|
    ensures i < LowerBound(ps, n) <==> LessPair(ps[i], n)
    ensures i < UpperBound(ps, n) <==> !LessPair(n, ps[i])
  {
    hide LessPair, LowerBound, UpperBound, Fits;
    var lo, hi := LowerBound(ps, n), UpperBound(ps, n);
    if lo <= i {
      PairOrder(proto, n, ps[lo], ps[i]);
      PairOrder(proto, ps[i], n, n);
      assert lo < i ==> !LessPair(ps[i], ps[lo]);
    }
    if hi <= i {
      PairOrder(proto, ps[i], n, ps[hi]);
      PairOrder(proto, n, ps[hi], n);
      PairOrder(proto, ps[hi], ps[i], n);
      assert hi < i ==> !LessPair(ps[i], ps[hi]);
    }
  }

  /** A new element goes after those not above it. */
  lemma PlacedInOrder(proto: map<nat, Key>, ps: seq<Pair>, n: Pair)
    requires Ordered(ps) && AllFit(proto, ps) && Fits(proto, n)
    ensures var k := UpperBound(ps, n);
      Ordered(ps[..k] + [n] + ps[k..]) && AllFit(proto, ps[..k] + [n] + ps[k..])
  {
    hide LessPair, UpperBound, Fits;
    var k := UpperBound(ps, n);
    var qs := ps[..k] + [n] + ps[k..];
    forall i, j | 0 <= i < j < |qs|
      ensures !LessPair(qs[j], qs[i])
    {
      if i == k {
        BoundsSplit(proto, ps, n, j - 1);
        PairOrder(proto, n, ps[j - 1], n);
      } else if j == k {
        BoundsSplit(proto, ps, n, i);
      }
    }
  }

  /** `n` fits between the neighbours of place `k`. */
  predicate Between(ps: seq<Pair>, k: nat, n: Pair)
    requires k < |ps|
  {
    (k > 0 ==> !LessPair(n, ps[k - 1])) && (k + 1 < |ps| ==> !LessPair(ps[k + 1], n))
  }

  /** An element changed where it is leaves the list in order if and only if it still fits between its neighbours. */
  lemma ReplacedInOrder(proto: map<nat, Key>, ps: seq<Pair>, k: nat, n: Pair)
    requires Ordered(ps) && AllFit(proto, ps) && Fits(proto, n) && k < |ps|
    ensures Ordered(ps[k := n]) <==> Between(ps, k, n)
  {
    hide LessPair, Fits;
    var qs := ps[k := n];
    if Ordered(qs) {
      assert k > 0 ==> !LessPair(qs[k], qs[k - 1]);
      assert k + 1 < |ps| ==> !LessPair(qs[k + 1], qs[k]);
    }
    if Between(ps, k, n) {
      forall i, j | 0 <= i < j < |qs|
        ensures !LessPair(qs[j], qs[i])
      {
        if i == k && j > k + 1 {
          PairOrder(proto, n, ps[k + 1], ps[j]);
        } else if j == k && i < k - 1 {
          PairOrder(proto, ps[i], ps[k - 1], n);
        }
      }
    }
  }

  // ---- ranges of keys

  datatype Range = Eq(key: Key) | Lt(key: Key) | Gt(key: Key) | In(low: Key, high: Key) | All

  predicate InRange(range: Range, key: Key) {
    match range
    case Eq(k) => !KeyLess(key, k) && !KeyLess(k, key)
    case Lt(k) => KeyLess(key, k)
    case Gt(k) => KeyLess(k, key)
    case In(low, high) => KeyLess(low, key) && KeyLess(key, high)
    case All => true
  }

  /** What the five queries ask for, told by the first column in which two keys differ. */
  lemma RangeExact(k: Key, low: Key, key: Key)
    requires SameKinds(key, k) && SameKinds(low, k)
    ensures InRange(Eq(k), key) <==> key == k
    ensures InRange(Lt(k), key) <==> KeyBelow(key, k)
    ensures InRange(Gt(k), key) <==> KeyBelow(k, key)
    ensures InRange(In(low, k), key) <==> KeyBelow(low, key) && KeyBelow(key, k)
    ensures InRange(All, key)
  {
    hide Cmp, KeyBelow;
    Trichotomy(key, k);
    KeysOrdered(key, k, key);
    Trichotomy(low, key);
  }

  /** The keys of a range have the table's kinds, and an interval is not empty (rococo-dst/memdb/table.h:241). */
  ghost predicate RangeFits(range: Range, p: Key) {
    match range
    case Eq(k) => SameKinds(k, p)
    case Lt(k) => SameKinds(k, p)
    case Gt(k) => SameKinds(k, p)
    case In(low, high) => SameKinds(low, p) && SameKinds(high, p) && KeyLess(low, high)
    case All => true
  }

  function SliceBegin(ps: seq<Pair>, t: nat, range: Range): (k: nat)
    ensures k <= |ps|
  {
    match range
    case Eq(k) => LowerBound(ps, Pair(t, RowKey(k)))
    case Lt(k) => LowerBound(ps, Pair(t, RowMin))
    case Gt(k) => UpperBound(ps, Pair(t, RowKey(k)))
    case In(low, high) => UpperBound(ps, Pair(t, RowKey(low)))
    case All => LowerBound(ps, Pair(t, RowMin))
  }

  function SliceEnd(ps: seq<Pair>, t: nat, range: Range): (k: nat)
    ensures k <= |ps|
  {
    match range
    case Eq(k) => UpperBound(ps, Pair(t, RowKey(k)))
    case Lt(k) => LowerBound(ps, Pair(t, RowKey(k)))
    case Gt(k) => UpperBound(ps, Pair(t, RowMax))
    case In(low, high) => LowerBound(ps, Pair(t, RowKey(high)))
    case All => UpperBound(ps, Pair(t, RowMax))
  }

  /** One element against the slice: it lies in it exactly when it is a row of the table with a key in range. */
  lemma SliceExact(proto: map<nat, Key>, ps: seq<Pair>, t: nat, range: Range, i: nat)
    requires Ordered(ps) && AllFit(proto, ps) && i < |ps| && ps[i].bound.RowKey?
    requires t in proto && RangeFits(range, proto[t])
    ensures SliceBegin(ps, t, range) <= i < SliceEnd(ps, t, range) <==>
      ps[i].table == t && InRange(range, ps[i].bound.key)
  {
    hide Cmp, LowerBound, UpperBound, Ordered, SameKinds;
    BoundsSplit(proto, ps, Pair(t, RowMin), i);
    BoundsSplit(proto, ps, Pair(t, RowMax), i);
    match range
    case Eq(k) => BoundsSplit(proto, ps, Pair(t, RowKey(k)), i);
    case Lt(k) => BoundsSplit(proto, ps, Pair(t, RowKey(k)), i);
    case Gt(k) => BoundsSplit(proto, ps, Pair(t, RowKey(k)), i);
    case In(low, high) =>
      BoundsSplit(proto, ps, Pair(t, RowKey(low)), i);
      BoundsSplit(proto, ps, Pair(t, RowKey(high)), i);
    case All =>
  }

  /** The slice is never turned around. */
  lemma SliceForward(proto: map<nat, Key>, ps: seq<Pair>, t: nat, range: Range)
    requires Ordered(ps) && AllFit(proto, ps) && t in proto && RangeFits(range, proto[t])
    requires forall i :: 0 <= i < |ps| ==> ps[i].bound.RowKey?
    ensures SliceBegin(ps, t, range) <= SliceEnd(ps, t, range)
  {
    hide Cmp, LowerBound, UpperBound, Ordered, SameKinds;
    var i := SliceEnd(ps, t, range);
    if i < |ps| {
      BoundsSplit(proto, ps, Pair(t, RowMin), i);
      BoundsSplit(proto, ps, Pair(t, RowMax), i);
      match range
      case Eq(k) =>
        BoundsSplit(proto, ps, Pair(t, RowKey(k)), i);
        PairOrder(proto, ps[i], Pair(t, RowKey(k)), ps[i]);
      case Lt(k) => BoundsSplit(proto, ps, Pair(t, RowKey(k)), i);
      case Gt(k) => BoundsSplit(proto, ps, Pair(t, RowKey(k)), i);
      case In(low, high) =>
        var lo, hi := Pair(t, RowKey(low)), Pair(t, RowKey(high));
        BoundsSplit(proto, ps, lo, i);
        BoundsSplit(proto, ps, hi, i);
        PairOrder(proto, hi, ps[i], lo);
        PairOrder(proto, lo, hi, lo);
      case All =>
    }
  }
}
