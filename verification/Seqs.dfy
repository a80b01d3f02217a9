/** Sequences without repetition, what they hold, and the ascending listing of a set. */
module Seqs {
  ghost predicate NoDup<V>(s: seq<V>) {
    forall i, j :: 0 <= i < j < |s| ==> s[i] != s[j]
  }

  /** The sequence ends with `x`. */
  ghost predicate EndsWith<V>(s: seq<V>, x: V) {
    s != [] && s[|s| - 1] == x
  }

  ghost function Elems<V>(s: seq<V>): set<V> {
    set x | x in s
  }

  function Reverse<T>(s: seq<T>): (r: seq<T>)
    ensures |r| == |s| && forall i :: 0 <= i < |s| ==> r[i] == s[|s| - 1 - i]
  {
    seq(|s|, i requires 0 <= i < |s| => s[|s| - 1 - i])
  }

  lemma ElemsAppend<T>(a: seq<T>, b: seq<T>)
    ensures Elems(a + b) == Elems(a) + Elems(b)
  {
  }

  lemma NoDupAppend<T>(a: seq<T>, b: seq<T>)
    requires NoDup(a) && NoDup(b) && Elems(a) !! Elems(b)
    ensures NoDup(a + b)
  {
    forall i, j | 0 <= i < j < |a + b|
      ensures (a + b)[i] != (a + b)[j]
    {
      if i < |a| && j >= |a| {
        assert a[i] in Elems(a) && b[j - |a|] in Elems(b);
      }
    }
  }

  lemma {:induction false} NoDupSize<T>(s: seq<T>)
    requires NoDup(s)
    ensures |Elems(s)| == |s|
  {
    if s == [] {
      assert Elems(s) == {};
    } else {
      var rest := s[..|s| - 1];
      NoDupSize(rest);
      assert s == rest + [s[|s| - 1]];
      ElemsAppend(rest, [s[|s| - 1]]);
      assert forall i :: 0 <= i < |rest| ==> rest[i] == s[i];
      assert s[|s| - 1] !in Elems(rest) && Elems([s[|s| - 1]]) == {s[|s| - 1]};
    }
  }

  lemma SmallerSet<V>(a: set<V>, b: set<V>)
    requires a < b
    ensures |a| < |b|
  {
    assert b == a + (b - a);
  }

  lemma NotLarger<V>(a: set<V>, b: set<V>)
    requires a <= b
    ensures |a| <= |b|
  {
    assert b == a + (b - a);
  }

  ghost predicate Ascending(s: seq<nat>) {
    forall i, j :: 0 <= i < j < |s| ==> s[i] < s[j]
  }

  lemma MaxExists(s: set<nat>)
    requires s != {}
    ensures exists m :: m in s && forall x :: x in s ==> x <= m
  {
    var x :| x in s;
    if s != {x} {
      MaxExists(s - {x});
      var m :| m in s - {x} && forall y :: y in s - {x} ==> y <= m;
      var top := if x < m then m else x;
      forall y | y in s
        ensures y <= top
      {
        assert y == x || y in s - {x};
      }
      assert top in s;
    }
  }

  ghost function Max(s: set<nat>): (m: nat)
    requires s != {}
    ensures m in s && forall x :: x in s ==> x <= m
  {
    MaxExists(s);
    var m :| m in s && forall x :: x in s ==> x <= m;
    m
  }

  /** The members of `s`, smallest first. */
  ghost function Asc(s: set<nat>): (r: seq<nat>)
    ensures Elems(r) == s && Ascending(r)
    decreases s
  {
    if s == {} then [] else
      var m := Max(s);
      var r := Asc(s - {m});
      ElemsAppend(r, [m]);
      assert forall i :: 0 <= i < |r| ==> r[i] in Elems(r);
      r + [m]
  }

  /** The last of an ascending sequence is the greatest of what it holds. */
  lemma LastGreatest(a: seq<nat>, x: nat)
    requires a != [] && Ascending(a)
    ensures a[|a| - 1] in Elems(a)
    ensures x in Elems(a) ==> x <= a[|a| - 1]
  {
  }

  lemma {:induction false} AscUnique(a: seq<nat>, b: seq<nat>)
    requires Ascending(a) && Ascending(b) && Elems(a) == Elems(b)
    ensures a == b
  {
    assert b != [] ==> b[0] in Elems(b);
    if a != [] {
      assert a[0] in Elems(b);
      var x, y := a[|a| - 1], b[|b| - 1];
      LastGreatest(a, y);
      LastGreatest(b, x);
      DropLast(a);
      DropLast(b);
      hide Elems;
      AscUnique(a[..|a| - 1], b[..|b| - 1]);
      assert a == a[..|a| - 1] + [x] && b == b[..|b| - 1] + [y];
    }
  }

  lemma DropLast(a: seq<nat>)
    requires a != [] && Ascending(a)
    ensures Elems(a[..|a| - 1]) == Elems(a) - {a[|a| - 1]}
  {
    assert a == a[..|a| - 1] + [a[|a| - 1]];
  }
}
