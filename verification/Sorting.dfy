/** The in-place quicksort that puts vertices in the order of their transaction ids. */
module Sorting {

  ghost predicate InOrder<V>(id: map<V, nat>, s: seq<V>, i: nat, j: nat) {
    i < j < |s| ==> s[i] in id && s[j] in id && id[s[i]] <= id[s[j]]
  }

  ghost predicate SortedById<V>(id: map<V, nat>, s: seq<V>) {
    && (forall x :: x in s ==> x in id)
    && forall i, j :: InOrder(id, s, i, j)
  }

  /** `after` permutes `before` and agrees with it outside `[p, q)`. */
  ghost predicate PermutesWithin<V>(before: seq<V>, after: seq<V>, p: nat, q: nat) {
    && p <= q <= |before| == |after|
    && multiset(after) == multiset(before)
    && forall k :: 0 <= k < p || q <= k < |before| ==> after[k] == before[k]
  }

  lemma InThree<V>(s: seq<V>, p: nat, q: nat, x: V)
    requires p <= q <= |s|
    ensures multiset(s)[x] == multiset(s[..p])[x] + multiset(s[p..q])[x] + multiset(s[q..])[x]
    ensures x in s[p..q] <==> multiset(s[p..q])[x] > 0
  {
    assert s == s[..p] + s[p..q] + s[q..];
  }

  lemma SegmentMembers<V>(before: seq<V>, after: seq<V>, p: nat, q: nat)
    requires PermutesWithin(before, after, p, q)
    ensures forall x :: x in after[p..q] <==> x in before[p..q]
  {
    assert after[..p] == before[..p] && after[q..] == before[q..];
    forall x
      ensures x in after[p..q] <==> x in before[p..q]
    {
      InThree(before, p, q, x);
      InThree(after, p, q, x);
    }
  }

  lemma WithinTrans<V>(a: seq<V>, b: seq<V>, c: seq<V>, p: nat, q: nat, p': nat, q': nat)
    requires p <= p' <= q' <= q
    requires PermutesWithin(a, b, p, q) && PermutesWithin(b, c, p', q')
    ensures PermutesWithin(a, c, p, q)
  {
  }

  /** The pivot at `q` is above everything before it and not above anything after it, within `[p, r)`. */
  ghost predicate Split<V>(id: map<V, nat>, s: seq<V>, p: nat, q: nat, r: nat) {
    && p <= q < r <= |s| && s[q] in id
    && (forall x :: x in s[p..q] ==> x in id && id[x] < id[s[q]])
    && (forall x :: x in s[q + 1..r] ==> x in id && id[s[q]] <= id[x])
  }

  method Swap<V>(a: array<V>, i: nat, j: nat)
    requires i < a.Length && j < a.Length
    modifies a
    ensures a[i] == old(a[j]) && a[j] == old(a[i])
    ensures forall k :: 0 <= k < a.Length && k != i && k != j ==> a[k] == old(a[k])
    ensures multiset(a[..]) == old(multiset(a[..]))
  {
    a[i], a[j] := a[j], a[i];
  }

  /** The loop of `qsort_vv` and the swap after it. */
  method Partition<V>(id: map<V, nat>, a: array<V>, p: int, r: int) returns (q: int)
    requires p <= r && HasIds(id, a[..], p, r + 1)
    modifies a
    ensures p <= q <= r
    ensures PermutesWithin(old(a[..]), a[..], p, r + 1)
    ensures Split(id, a[..], p, q, r + 1)
  {
    var i := p;
    var x := a[r];
    for j := p to r
      invariant p <= i <= j && a[r] == x
      invariant forall k :: p <= k <= r ==> a[k] in id
      invariant forall k :: p <= k < i ==> id[a[k]] < id[x]
      invariant forall k :: i <= k < j ==> id[x] <= id[a[k]]
      invariant forall k :: 0 <= k < p || r < k < a.Length ==> a[k] == old(a[k])
      invariant multiset(a[..]) == old(multiset(a[..]))
    {
      if id[a[j]] < id[x] {
        Swap(a, i, j);
        i := i + 1;
      }
    }
    q := i;
    Swap(a, r, q);
  }

  lemma SortedAroundPivot<V>(id: map<V, nat>, s: seq<V>, p: nat, q: nat, r: nat)
    requires Split(id, s, p, q, r)
    requires SortedById(id, s[p..q]) && SortedById(id, s[q + 1..r])
    ensures SortedById(id, s[p..r])
  {
    var t := s[p..r];
    assert t == s[p..q] + [s[q]] + s[q + 1..r];
    assert forall x :: x in t ==> x in s[p..q] || x == s[q] || x in s[q + 1..r];
    forall i, j | 0 <= i < j < |t|
      ensures InOrder(id, t, i, j)
    {
      assert j < q - p ==> InOrder(id, s[p..q], i, j);
      assert i > q - p ==> InOrder(id, s[q + 1..r], i - (q - p) - 1, j - (q - p) - 1);
      assert i < q - p ==> t[i] in s[p..q];
      assert j < q - p ==> t[j] in s[p..q];
      assert i > q - p ==> t[i] in s[q + 1..r];
      assert j > q - p ==> t[j] in s[q + 1..r];
    }
  }

  ghost predicate HasIds<V>(id: map<V, nat>, s: seq<V>, p: int, q: int) {
    0 <= p <= q <= |s| && forall k :: p <= k < q ==> s[k] in id
  }

  method QsortVv<V>(id: map<V, nat>, a: array<V>, p: int, r: int)
    requires HasIds(id, a[..], p, r + 1)
    modifies a
    decreases r + 1 - p, 1
    ensures PermutesWithin(old(a[..]), a[..], p, r + 1)
    ensures SortedById(id, a[..][p..r + 1])
  {
    if p >= r {
      return;
    }
    var q := Partition(id, a, p, r);
    ghost var s := a[..];
    SortSides(id, a, p, q, r);
    WithinTrans(old(a[..]), s, a[..], p, r + 1, p, r + 1);
  }

  /** The two recursive calls of `qsort_vv`, left of the pivot and right of it. */
  method SortSides<V>(id: map<V, nat>, a: array<V>, p: int, q: int, r: int)
    requires 0 <= p <= q <= r && Split(id, a[..], p, q, r + 1)
    modifies a
    decreases r + 1 - p, 0
    ensures PermutesWithin(old(a[..]), a[..], p, r + 1)
    ensures SortedById(id, a[..][p..r + 1])
  {
    LeftSide(id, a[..], p, q, r + 1);
    QsortVv(id, a, p, q - 1);
    ghost var s := a[..];
    RightSide(id, old(a[..]), s, p, q, r + 1);
    QsortVv(id, a, q + 1, r);
    Halves(id, old(a[..]), s, a[..], p, q, r + 1);
  }

  lemma LeftSide<V>(id: map<V, nat>, s: seq<V>, p: nat, q: nat, r: nat)
    requires Split(id, s, p, q, r)
    ensures HasIds(id, s, p, q)
  {
    assert forall k :: p <= k < q ==> s[k] == s[p..q][k - p];
  }

  lemma RightSide<V>(id: map<V, nat>, s0: seq<V>, s1: seq<V>, p: nat, q: nat, r: nat)
    requires Split(id, s0, p, q, r) && PermutesWithin(s0, s1, p, q)
    ensures HasIds(id, s1, q + 1, r)
  {
    assert s1[q + 1..r] == s0[q + 1..r];
    assert forall k :: q < k < r ==> s1[k] == s1[q + 1..r][k - q - 1];
  }

  /** Sorting the two sides of the pivot, one after the other, sorts the whole segment. */
  lemma Halves<V>(id: map<V, nat>, s0: seq<V>, s1: seq<V>, s2: seq<V>, p: nat, q: nat, r: nat)
    requires Split(id, s0, p, q, r)
    requires PermutesWithin(s0, s1, p, q) && SortedById(id, s1[p..q])
    requires PermutesWithin(s1, s2, q + 1, r) && SortedById(id, s2[q + 1..r])
    ensures PermutesWithin(s0, s2, p, r) && SortedById(id, s2[p..r])
  {
    SegmentMembers(s0, s1, p, q);
    SegmentMembers(s1, s2, q + 1, r);
    assert s2[p..q] == s1[p..q] && s2[q] == s1[q] == s0[q];
    assert s1[q + 1..r] == s0[q + 1..r];
    SortedAroundPivot(id, s2, p, q, r);
  }
}
