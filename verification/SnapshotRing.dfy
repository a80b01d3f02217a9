/** The circular doubly linked list of the members of a snapshot group. */
module SnapshotRing {
  import opened Seqs

  function Succ(i: nat, n: nat): nat {
    if i + 1 == n then 0 else i + 1
  }

  ghost predicate LinkedAt(next: map<nat, nat>, prev: map<nat, nat>, s: seq<nat>, i: nat)
    requires i < |s|
  {
    var t := s[Succ(i, |s|)];
    s[i] in next && t in prev && next[s[i]] == t && prev[t] == s[i]
  }

  /**
   * Following `next` from the first element visits the elements of `s` in order and comes back; `prev` goes the other
   * way.
   */
  ghost predicate Circle(next: map<nat, nat>, prev: map<nat, nat>, s: seq<nat>) {
    s != [] && NoDup(s) && forall i :: 0 <= i < |s| ==> LinkedAt(next, prev, s, i)
  }

  function Rotated(s: seq<nat>, k: nat): seq<nat>
    requires k <= |s|
  {
    s[k..] + s[..k]
  }

  lemma Rotate(next: map<nat, nat>, prev: map<nat, nat>, s: seq<nat>, k: nat)
    requires Circle(next, prev, s) && k <= |s|
    ensures Circle(next, prev, Rotated(s, k))
  {
    var r, n := Rotated(s, k), |s|;
    forall i, j | 0 <= i < j < n
      ensures r[i] != r[j]
    {
      assert r[i] == s[if i + k < n then i + k else i + k - n];
      assert r[j] == s[if j + k < n then j + k else j + k - n];
    }
    forall i | 0 <= i < n
      ensures LinkedAt(next, prev, r, i)
    {
      var a := if i + k < n then i + k else i + k - n;
      assert r[i] == s[a] && r[Succ(i, n)] == s[Succ(a, n)];
      assert LinkedAt(next, prev, s, a);
    }
  }

  /** A newcomer steps in before the first element, that is, behind the last. */
  lemma Append(next: map<nat, nat>, prev: map<nat, nat>, s: seq<nat>, x: nat)
    requires Circle(next, prev, s) && x !in s
    ensures s[0] in prev
    ensures Circle(next[x := s[0]][prev[s[0]] := x], prev[x := prev[s[0]]][s[0] := x], s + [x])
  {
    var src, n := s[0], |s|;
    assert LinkedAt(next, prev, s, n - 1);
    var next', prev', r := next[x := src][prev[src] := x], prev[x := prev[src]][src := x], s + [x];
    forall i | 0 <= i < |r|
      ensures LinkedAt(next', prev', r, i)
    {
      if i < n - 1 {
        assert LinkedAt(next, prev, s, i);
        assert r[i] == s[i] && r[i + 1] == s[i + 1];
      }
    }
  }

  /** The first element leaves. */
  lemma Leave(next: map<nat, nat>, prev: map<nat, nat>, s: seq<nat>)
    requires Circle(next, prev, s) && |s| > 1
    ensures s[0] in prev && s[0] in next && prev[s[0]] != s[0]
    ensures Circle(next[prev[s[0]] := next[s[0]]], prev[next[s[0]] := prev[s[0]]], s[1..])
  {
    var x, n, r := s[0], |s|, s[1..];
    assert LinkedAt(next, prev, s, n - 1) && LinkedAt(next, prev, s, 0);
    var next', prev' := next[prev[x] := next[x]], prev[next[x] := prev[x]];
    forall i | 0 <= i < |r|
      ensures LinkedAt(next', prev', r, i)
    {
      assert LinkedAt(next, prev, s, i + 1);
      assert r[i] == s[i + 1];
    }
  }

  lemma Alone(next: map<nat, nat>, prev: map<nat, nat>, s: seq<nat>, x: nat)
    requires Circle(next, prev, s) && x in s && x in prev
    ensures prev[x] == x <==> s == [x]
  {
    var i :| 0 <= i < |s| && s[i] == x;
    var p: int := if i == 0 then |s| - 1 else i - 1;
    assert LinkedAt(next, prev, s, p);
    if |s| == 1 {
      assert s == [x];
    }
  }

  /** Only the links of its own members matter to a circle. */
  lemma Elsewhere(next: map<nat, nat>, prev: map<nat, nat>, next': map<nat, nat>, prev': map<nat, nat>, s: seq<nat>)
    requires Circle(next, prev, s)
    requires forall x :: x in s ==>
      (x in next ==> x in next' && next'[x] == next[x]) && (x in prev ==> x in prev' && prev'[x] == prev[x])
    ensures Circle(next', prev', s)
  {
    forall i | 0 <= i < |s|
      ensures LinkedAt(next', prev', s, i)
    {
      assert LinkedAt(next, prev, s, i);
    }
  }
}
