/** The versioned multimap that the members of a snapshot group share, and what each version of it shows. */
module SnapshotData {
  import opened Options

  /** An entry is there from the version that created it up to the version that removed it. */
  datatype Entry = Entry(key: int, val: int, created: nat, removed: Option<nat>)

  type Pairs = seq<(int, int)>

  predicate ValidAt(e: Entry, v: nat) {
    e.created <= v && (e.removed.None? || v < e.removed.value)
  }

  function Kv(e: Entry): (int, int) {
    (e.key, e.val)
  }

  /** What version `v` shows, in key order, equal keys in the order they were inserted. */
  function Visible(d: seq<Entry>, v: nat): Pairs {
    if d == [] then []
    else if ValidAt(d[0], v) then [Kv(d[0])] + Visible(d[1..], v)
    else Visible(d[1..], v)
  }

  ghost predicate Sorted(d: seq<Entry>) {
    forall i, j :: 0 <= i < j < |d| ==> d[i].key <= d[j].key
  }

  /** Insertion into a multimap: behind all entries with the same or a smaller key. */
  function Put(d: seq<Entry>, e: Entry): seq<Entry> {
    if d == [] then [e]
    else if d[0].key <= e.key then [d[0]] + Put(d[1..], e)
    else [e] + d
  }

  function PutPair(s: Pairs, x: (int, int)): Pairs {
    if s == [] then [x]
    else if s[0].0 <= x.0 then [s[0]] + PutPair(s[1..], x)
    else [x] + s
  }

  /** Which pairs an erase is about: those with a key, or with a key and a value. */
  datatype Which = ByKey(k: int) | ByPair(k: int, x: int)

  predicate Hits(w: Which, p: (int, int)) {
    p.0 == w.k && (w.ByPair? ==> p.1 == w.x)
  }

  function Without(s: Pairs, w: Which): Pairs {
    if s == [] then []
    else if Hits(w, s[0]) then Without(s[1..], w)
    else [s[0]] + Without(s[1..], w)
  }

  /** Erasing while others look on: what is visible is marked as removed. */
  function MarkOne(e: Entry, w: Which, orig: nat, ver: nat): Entry {
    if Hits(w, Kv(e)) && ValidAt(e, orig) then e.(removed := Some(ver)) else e
  }

  function Mark(d: seq<Entry>, w: Which, orig: nat, ver: nat): (r: seq<Entry>)
    ensures |r| == |d| && forall i :: 0 <= i < |d| ==> r[i] == MarkOne(d[i], w, orig, ver)
  {
    if d == [] then [] else [MarkOne(d[0], w, orig, ver)] + Mark(d[1..], w, orig, ver)
  }

  /** Erasing alone: the entries go. */
  function Drop(d: seq<Entry>, w: Which): seq<Entry> {
    if d == [] then []
    else if Hits(w, Kv(d[0])) then Drop(d[1..], w)
    else [d[0]] + Drop(d[1..], w)
  }

  predicate Garbage(e: Entry, low: nat) {
    e.removed.Some? && e.removed.value < low
  }

  /** Garbage collection: entries removed before the oldest version go. */
  function Collect(d: seq<Entry>, low: nat): seq<Entry> {
    if d == [] then []
    else if Garbage(d[0], low) then Collect(d[1..], low)
    else [d[0]] + Collect(d[1..], low)
  }

  /** Nothing in the map is newer than version `v`. */
  ghost predicate UpTo(d: seq<Entry>, v: nat) {
    forall i :: 0 <= i < |d| ==> d[i].created <= v && (d[i].removed.Some? ==> d[i].created < d[i].removed.value <= v)
  }

  // ---- What each version sees of an operation

  lemma {:induction false} VisibleAbove(d: seq<Entry>, v: nat, k: int)
    requires forall i :: 0 <= i < |d| ==> k < d[i].key
    ensures Visible(d, v) == [] || k < Visible(d, v)[0].0
  {
    if d != [] {
      VisibleAbove(d[1..], v, k);
    }
  }

  /** A version that sees the new entry sees it in its place; one that does not sees no difference. */
  lemma {:induction false} VisiblePut(d: seq<Entry>, e: Entry, v: nat)
    requires Sorted(d)
    ensures Visible(Put(d, e), v) == if ValidAt(e, v) then PutPair(Visible(d, v), Kv(e)) else Visible(d, v)
  {
    if d == [] {
    } else if d[0].key <= e.key {
      VisiblePut(d[1..], e, v);
      assert Put(d, e)[1..] == Put(d[1..], e);
    } else {
      VisibleAbove(d, v, e.key);
      assert ([e] + d)[1..] == d;
    }
  }

  lemma {:induction false} PutMembers(d: seq<Entry>, e: Entry)
    requires Sorted(d)
    ensures Sorted(Put(d, e)) && |Put(d, e)| == |d| + 1 && forall x :: x in Put(d, e) <==> x in d || x == e
  {
    if d == [] {
    } else if d[0].key <= e.key {
      PutMembers(d[1..], e);
      var r := Put(d[1..], e);
      assert d == [d[0]] + d[1..];
      assert forall j :: 0 <= j < |r| ==> r[j] in r;
      assert forall j :: 0 <= j < |d[1..]| ==> d[1..][j] == d[j + 1];
      assert forall x :: x in r ==> d[0].key <= x.key;
    }
  }

  /** A version from before the erase sees no difference. */
  lemma {:induction false} VisibleMarkBefore(d: seq<Entry>, w: Which, orig: nat, ver: nat, v: nat)
    requires v <= orig < ver && UpTo(d, orig)
    ensures Visible(Mark(d, w, orig, ver), v) == Visible(d, v)
  {
    if d != [] {
      VisibleMarkBefore(d[1..], w, orig, ver, v);
      assert Mark(d, w, orig, ver)[1..] == Mark(d[1..], w, orig, ver);
    }
  }

  /** The version of the erase sees what was there without the pairs erased. */
  lemma {:induction false} VisibleMark(d: seq<Entry>, w: Which, orig: nat)
    requires UpTo(d, orig)
    ensures Visible(Mark(d, w, orig, orig + 1), orig + 1) == Without(Visible(d, orig), w)
  {
    if d != [] {
      VisibleMark(d[1..], w, orig);
      assert Mark(d, w, orig, orig + 1)[1..] == Mark(d[1..], w, orig, orig + 1);
    }
  }

  lemma {:induction false} VisibleDrop(d: seq<Entry>, w: Which, v: nat)
    ensures Visible(Drop(d, w), v) == Without(Visible(d, v), w)
  {
    if d != [] {
      VisibleDrop(d[1..], w, v);
    }
  }

  /** The new pair goes behind the pairs with keys up to its own, and in front of the first with a greater one. */
  lemma {:induction false} PutPlace(s: Pairs, x: (int, int)) returns (p: nat)
    ensures p <= |s| && PutPair(s, x) == s[..p] + [x] + s[p..]
    ensures (forall i :: 0 <= i < p ==> s[i].0 <= x.0) && (p < |s| ==> x.0 < s[p].0)
  {
    if s == [] || x.0 < s[0].0 {
      p := 0;
    } else {
      var q := PutPlace(s[1..], x);
      p := q + 1;
      assert s[1..][..q] == s[1..p] && s[1..][q..] == s[p..];
      assert [s[0]] + s[1..p] == s[..p];
      assert forall i :: 0 < i < p ==> s[i] == s[1..][i - 1];
    }
  }

  /** `after` holds the pairs of `before` at the places `at`, in their order. */
  ghost predicate Selected(before: Pairs, after: Pairs, at: seq<nat>) {
    && |at| == |after|
    && (forall i, j :: 0 <= i < j < |at| ==> at[i] < at[j])
    && (forall i :: 0 <= i < |at| ==> at[i] < |before| && after[i] == before[at[i]])
  }

  lemma SelectMore(s: Pairs, after: Pairs, rest: seq<nat>, stay: bool) returns (at: seq<nat>)
    requires s != [] && Selected(s[1..], after, rest)
    ensures Selected(s, if stay then [s[0]] + after else after, at)
    ensures (0 in at <==> stay) && forall j: nat :: 0 < j < |s| ==> (j in at <==> j - 1 in rest)
  {
    var next := seq(|rest|, i requires 0 <= i < |rest| => rest[i] + 1);
    ShiftedPlaces(s, after, rest, next);
    hide Selected;
    if stay {
      at := [0] + next;
      FirstStays(s, after, next);
    } else {
      at := next;
    }
    forall j: nat | 0 < j < |s|
      ensures j in at <==> j - 1 in rest
    {
      ShiftedPlace(rest, next, j);
    }
  }

  lemma ShiftedPlaces(s: Pairs, after: Pairs, rest: seq<nat>, next: seq<nat>)
    requires s != [] && Selected(s[1..], after, rest)
    requires |next| == |rest| && forall i :: 0 <= i < |rest| ==> next[i] == rest[i] + 1
    ensures Selected(s, after, next) && 0 !in next
  {
  }

  lemma FirstStays(s: Pairs, after: Pairs, next: seq<nat>)
    requires s != [] && Selected(s, after, next) && 0 !in next
    ensures Selected(s, [s[0]] + after, [0] + next)
  {
    assert forall i :: 0 <= i < |next| ==> next[i] in next;
  }

  /** What an erase leaves: by key, the pairs of other keys; by key and value, all other pairs, of that key too. */
  lemma {:induction false} ErasedPairs(s: Pairs, w: Which) returns (at: seq<nat>)
    ensures Selected(s, Without(s, w), at)
    ensures w.ByKey? ==> forall j: nat :: j < |s| ==> (j in at <==> s[j].0 != w.k)
    ensures w.ByPair? ==> forall j: nat :: j < |s| ==> (j in at <==> s[j] != (w.k, w.x))
  {
    hide Selected;
    if s == [] {
      at := [];
      NoneSelected();
    } else {
      var rest := ErasedPairs(s[1..], w);
      at := SelectMore(s, Without(s[1..], w), rest, !Hits(w, s[0]));
      forall j: nat | j < |s|
        ensures w.ByKey? ==> (j in at <==> s[j].0 != w.k)
        ensures w.ByPair? ==> (j in at <==> s[j] != (w.k, w.x))
      {
        assert j > 0 ==> s[1..][j - 1] == s[j];
      }
    }
  }

  lemma NoneSelected()
    ensures Selected([], [], [])
  {
  }

  lemma ShiftedPlace(rest: seq<nat>, next: seq<nat>, j: nat)
    requires j > 0 && |next| == |rest| && forall i :: 0 <= i < |rest| ==> next[i] == rest[i] + 1
    ensures j in next <==> j - 1 in rest
  {
    if j - 1 in rest {
      var i :| 0 <= i < |rest| && rest[i] == j - 1;
      assert next[i] == j;
    }
  }

  lemma {:induction false} DropMembers(d: seq<Entry>, w: Which)
    ensures forall x :: x in Drop(d, w) <==> x in d && !Hits(w, Kv(x))
    ensures Sorted(d) ==> Sorted(Drop(d, w))
  {
    if d != [] {
      DropMembers(d[1..], w);
      assert d == [d[0]] + d[1..];
      if Sorted(d) {
        KeepFront(d, Drop(d[1..], w));
      }
    }
  }

  /** Putting the first entry of a sorted map back in front of some of the others. */
  lemma KeepFront(d: seq<Entry>, r: seq<Entry>)
    requires d != [] && Sorted(d) && Sorted(r) && forall x :: x in r ==> x in d
    ensures Sorted([d[0]] + r)
  {
    assert forall x :: x in d ==> d[0].key <= x.key;
    assert forall j :: 0 <= j < |r| ==> r[j] in r;
  }

  /** When nothing is newer than `v`, the next version sees the same. */
  lemma {:induction false} VisibleNext(d: seq<Entry>, v: nat)
    requires UpTo(d, v)
    ensures Visible(d, v + 1) == Visible(d, v)
  {
    if d != [] {
      VisibleNext(d[1..], v);
    }
  }

  /** Collection is invisible to every version it takes into account. */
  lemma {:induction false} VisibleCollect(d: seq<Entry>, low: nat, v: nat)
    requires low <= v
    ensures Visible(Collect(d, low), v) == Visible(d, v)
  {
    if d != [] {
      VisibleCollect(d[1..], low, v);
    }
  }

  lemma {:induction false} CollectMembers(d: seq<Entry>, low: nat)
    ensures forall x :: x in Collect(d, low) <==> x in d && !Garbage(x, low)
    ensures Sorted(d) ==> Sorted(Collect(d, low))
  {
    if d != [] {
      CollectMembers(d[1..], low);
      assert d == [d[0]] + d[1..];
      if Sorted(d) {
        KeepFront(d, Collect(d[1..], low));
      }
    }
  }

  // ---- Copying what is visible into a fresh map

  ghost predicate SortedPairs(s: Pairs) {
    forall i, j :: 0 <= i < j < |s| ==> s[i].0 <= s[j].0
  }

  lemma {:induction false} VisibleSorted(d: seq<Entry>, v: nat)
    requires Sorted(d)
    ensures SortedPairs(Visible(d, v))
  {
    if d != [] {
      VisibleSorted(d[1..], v);
      VisibleFrom(d[1..], v, d[0].key);
    }
  }

  lemma {:induction false} VisibleFrom(d: seq<Entry>, v: nat, k: int)
    requires forall i :: 0 <= i < |d| ==> k <= d[i].key
    ensures forall i :: 0 <= i < |Visible(d, v)| ==> k <= Visible(d, v)[i].0
  {
    if d != [] {
      VisibleFrom(d[1..], v, k);
    }
  }

  /** The map after the pairs were inserted one by one at version 1. */
  function Filled(s: Pairs): seq<Entry> {
    if s == [] then [] else Put(Filled(s[..|s| - 1]), Entry(s[|s| - 1].0, s[|s| - 1].1, 1, None))
  }

  lemma {:induction false} PutLast(s: Pairs, x: (int, int))
    requires forall i :: 0 <= i < |s| ==> s[i].0 <= x.0
    ensures PutPair(s, x) == s + [x]
  {
    if s != [] {
      PutLast(s[1..], x);
      assert s == [s[0]] + s[1..];
    }
  }

  /** The pairs in the order a multimap keeps them when they are inserted one by one. */
  function Arranged(s: Pairs): Pairs {
    if s == [] then [] else PutPair(Arranged(s[..|s| - 1]), s[|s| - 1])
  }

  /** The values of one key. */
  function OfKey(s: Pairs, k: int): seq<int> {
    if s == [] then [] else (if s[0].0 == k then [s[0].1] else []) + OfKey(s[1..], k)
  }

  lemma {:induction false} OfKeySplit(a: Pairs, b: Pairs, k: int)
    ensures OfKey(a + b, k) == OfKey(a, k) + OfKey(b, k)
  {
    if a == [] {
      assert a + b == b;
    } else {
      OfKeySplit(a[1..], b, k);
      assert (a + b)[1..] == a[1..] + b;
    }
  }

  lemma {:induction false} NoneOfKey(s: Pairs, k: int)
    requires forall i :: 0 <= i < |s| ==> s[i].0 != k
    ensures OfKey(s, k) == []
  {
    if s != [] {
      NoneOfKey(s[1..], k);
    }
  }

  lemma {:induction false} PutPairBag(s: Pairs, x: (int, int))
    ensures multiset(PutPair(s, x)) == multiset(s) + multiset{x}
  {
    if s != [] {
      assert s == [s[0]] + s[1..];
      if s[0].0 <= x.0 {
        PutPairBag(s[1..], x);
      }
    }
  }

  lemma {:induction false} PutPairSorted(s: Pairs, x: (int, int))
    requires SortedPairs(s)
    ensures SortedPairs(PutPair(s, x))
  {
    if s != [] && s[0].0 <= x.0 {
      PutPairSorted(s[1..], x);
      PutPairFrom(s[1..], x, s[0].0);
    }
  }

  lemma {:induction false} PutPairFrom(s: Pairs, x: (int, int), k: int)
    requires k <= x.0 && forall i :: 0 <= i < |s| ==> k <= s[i].0
    ensures forall i :: 0 <= i < |PutPair(s, x)| ==> k <= PutPair(s, x)[i].0
  {
    if s != [] && s[0].0 <= x.0 {
      PutPairFrom(s[1..], x, k);
    }
  }

  lemma {:induction false} PutPairKey(s: Pairs, x: (int, int), k: int)
    requires SortedPairs(s)
    ensures OfKey(PutPair(s, x), k) == OfKey(s, k) + OfKey([x], k)
  {
    if s == [] {
      assert OfKey([], k) == [];
    } else if s[0].0 <= x.0 {
      PutPairKey(s[1..], x, k);
      OfKeySplit([s[0]], PutPair(s[1..], x), k);
      OfKeySplit([s[0]], s[1..], k);
      assert s == [s[0]] + s[1..];
    } else {
      OfKeySplit([x], s, k);
      if x.0 == k {
        NoneOfKey(s, k);
      } else {
        NoneOfKey([x], k);
      }
    }
  }

  /** It is the stable sort by key: the same pairs, keys ascending, and under each key the order they came in. */
  lemma {:induction false} ArrangedStable(s: Pairs, k: int)
    ensures SortedPairs(Arranged(s)) && multiset(Arranged(s)) == multiset(s)
    ensures OfKey(Arranged(s), k) == OfKey(s, k)
  {
    hide PutPair, OfKey, SortedPairs;
    if s == [] {
      NoneOfKey([], k);
      assert SortedPairs([]) by { NoPairs(); }
    } else {
      var rest, x := s[..|s| - 1], s[|s| - 1];
      ArrangedStable(rest, k);
      PutPairBag(Arranged(rest), x);
      PutPairSorted(Arranged(rest), x);
      PutPairKey(Arranged(rest), x, k);
      assert s == rest + [x];
      OfKeySplit(rest, [x], k);
    }
  }

  lemma NoPairs()
    ensures SortedPairs([])
  {
  }

  lemma {:induction false} ArrangedSorted(s: Pairs)
    requires SortedPairs(s)
    ensures Arranged(s) == s
  {
    if s != [] {
      ArrangedSorted(s[..|s| - 1]);
      PutLast(s[..|s| - 1], s[|s| - 1]);
    }
  }

  lemma {:induction false} FilledOk(s: Pairs)
    ensures Sorted(Filled(s)) && UpTo(Filled(s), 1) && Visible(Filled(s), 1) == Arranged(s) && |Filled(s)| == |s|
    ensures forall e :: e in Filled(s) ==> e.created == 1 && e.removed.None?
  {
    if s != [] {
      var rest, x := s[..|s| - 1], s[|s| - 1];
      var e := Entry(x.0, x.1, 1, None);
      FilledOk(rest);
      PutMembers(Filled(rest), e);
      VisiblePut(Filled(rest), e, 1);
      assert forall i :: 0 <= i < |Filled(s)| ==> Filled(s)[i] in Filled(s);
    }
  }
}
