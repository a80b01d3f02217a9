/** Drawing distinct item ids: each draw is adjusted past the ids that are taken already. */
module ItemDraw {
  import opened Seqs

  ghost predicate Below(s: seq<nat>, n: nat) {
    forall i :: 0 <= i < |s| ==> s[i] < n
  }

  /** The ids below `n` that are not taken, in ascending order. */
  ghost function Unused(taken: seq<nat>, n: nat): seq<nat> {
    if n == 0 then [] else Unused(taken, n - 1) + (if n - 1 in taken then [] else [n - 1])
  }

  /** How many taken ids are not above `t`. */
  function CountLe(s: seq<nat>, t: int): nat {
    if s == [] then 0 else CountLe(s[..|s| - 1], t) + (if s[|s| - 1] <= t then 1 else 0)
  }

  lemma {:induction false} CountStep(s: seq<nat>, t: nat)
    requires NoDup(s)
    ensures CountLe(s, t) == CountLe(s, t - 1) + if t in s then 1 else 0
  {
    if s != [] {
      var rest, x := s[..|s| - 1], s[|s| - 1];
      CountStep(rest, t);
      assert s == rest + [x];
    }
  }

  lemma {:induction false} CountNone(s: seq<nat>)
    ensures CountLe(s, -1) == 0
  {
    if s != [] {
      CountNone(s[..|s| - 1]);
    }
  }

  lemma {:induction false} CountMonotone(s: seq<nat>, t: int, u: int)
    requires t <= u
    ensures CountLe(s, t) <= CountLe(s, u) <= |s|
  {
    if s != [] {
      CountMonotone(s[..|s| - 1], t, u);
    }
  }

  lemma {:induction false} CountAll(s: seq<nat>, n: nat)
    requires Below(s, n)
    ensures CountLe(s, n - 1) == |s|
  {
    if s != [] {
      CountAll(s[..|s| - 1], n);
    }
  }

  lemma {:induction false} UnusedCount(taken: seq<nat>, n: nat)
    requires NoDup(taken)
    ensures |Unused(taken, n)| + CountLe(taken, n - 1) == n
  {
    if n == 0 {
      CountNone(taken);
    } else {
      UnusedCount(taken, n - 1);
      CountStep(taken, n - 1);
    }
  }

  /** The list holds exactly the free ids below `n`, each once, smallest first. */
  lemma {:induction false} UnusedOnce(taken: seq<nat>, n: nat)
    ensures forall x: nat :: x in Unused(taken, n) <==> x < n && x !in taken
    ensures forall i, j :: 0 <= i < j < |Unused(taken, n)| ==> Unused(taken, n)[i] < Unused(taken, n)[j]
  {
    if n > 0 {
      UnusedOnce(taken, n - 1);
      var s := Unused(taken, n - 1);
      assert forall i :: 0 <= i < |s| ==> s[i] in s;
    }
  }

  lemma {:induction false} UnusedPrefix(taken: seq<nat>, m: nat, n: nat)
    requires m <= n
    ensures Unused(taken, m) <= Unused(taken, n)
  {
    if m < n {
      UnusedPrefix(taken, m, n - 1);
    }
  }

  /** The id at place `r` has `r` free ids below it, so it is `r` plus the taken ones. */
  lemma PlaceOf(taken: seq<nat>, n: nat, r: nat)
    requires NoDup(taken) && r < |Unused(taken, n)|
    ensures var u := Unused(taken, n)[r]; u < n && u !in taken && u == r + CountLe(taken, u)
  {
    UnusedOnce(taken, n);
    var u := Unused(taken, n)[r];
    assert u in Unused(taken, n);
    UnusedPrefix(taken, u + 1, n);
    UnusedCount(taken, u + 1);
    var low := Unused(taken, u + 1);
    assert low[|low| - 1] == u;
    assert Unused(taken, n)[|low| - 1] == u;
  }

  /** A number that equals `r` plus the taken ids up to it is not below the id at place `r`. */
  lemma NotBelow(taken: seq<nat>, n: nat, r: nat, t: nat)
    requires NoDup(taken) && r < |Unused(taken, n)| && t < n && t == r + CountLe(taken, t)
    ensures Unused(taken, n)[r] <= t
  {
    UnusedCount(taken, t + 1);
    UnusedPrefix(taken, t + 1, n);
    UnusedOnce(taken, t + 1);
    var low := Unused(taken, t + 1);
    assert |low| == r + 1 && low[r] in low && low[r] == Unused(taken, n)[r];
  }

  method CountTaken(buf: array<nat>, i: nat, t: nat) returns (nLess: nat)
    requires i <= buf.Length
    ensures nLess == CountLe(buf[..i], t)
  {
    nLess := 0;
    for j := 0 to i
      invariant nLess == CountLe(buf[..j], t)
    {
      assert buf[..j + 1][..j] == buf[..j];
      if buf[j] <= t {
        nLess := nLess + 1;
      }
    }
  }

  /** The adjustment loop: it ends, at the free id whose place is the draw. */
  method Adjust(buf: array<nat>, i: nat, n: nat, r: nat) returns (id: nat)
    requires i <= buf.Length && NoDup(buf[..i]) && Below(buf[..i], n) && r + i < n
    ensures r < |Unused(buf[..i], n)| && id == Unused(buf[..i], n)[r]
  {
    ghost var taken := buf[..i];
    UnusedCount(taken, n);
    CountAll(taken, n);
    ghost var goal := Unused(taken, n)[r];
    PlaceOf(taken, n, r);
    id := r;
    var preLess, nLess := 0, 0;
    while true
      invariant id == r + preLess && preLess <= CountLe(taken, id) && id <= goal
      decreases goal - id
    {
      nLess := CountTaken(buf, i, id);
      CountMonotone(taken, id, goal);
      if nLess == preLess {
        break;
      }
      ghost var oldId := id;
      id := id + (nLess - preLess);
      preLess := nLess;
      CountMonotone(taken, oldId, id);
    }
    NotBelow(taken, n, r, id);
  }

  /** The draws of one order: all ids in range and distinct, each the free id at the place drawn. */
  method DrawItems(draws: seq<nat>, n: nat) returns (ids: seq<nat>)
    requires forall i :: 0 <= i < |draws| ==> draws[i] + i < n
    ensures |ids| == |draws| && NoDup(ids) && Below(ids, n)
    ensures forall i :: 0 <= i < |ids| ==> draws[i] < |Unused(ids[..i], n)| && ids[i] == Unused(ids[..i], n)[draws[i]]
  {
    var buf := new nat[|draws|];
    for i := 0 to |draws|
      invariant NoDup(buf[..i]) && Below(buf[..i], n)
      invariant forall k :: 0 <= k < i ==> draws[k] < |Unused(buf[..k], n)| && buf[k] == Unused(buf[..k], n)[draws[k]]
    {
      var id := Adjust(buf, i, n, draws[i]);
      ghost var taken := buf[..i];
      PlaceOf(taken, n, draws[i]);
      Extend(taken, id, n);
      ghost var before := buf[..];
      buf[i] := id;
      assert buf[..i + 1] == taken + [id];
      assert forall k :: 0 <= k <= i ==> buf[..k] == before[..k];
      assert forall k :: 0 <= k < i ==> buf[k] == before[k];
    }
    ids := buf[..];
    assert forall k :: 0 <= k < |ids| ==> ids[..k] == buf[..k];
    assert buf[..|draws|] == ids;
  }

  lemma Extend(taken: seq<nat>, id: nat, n: nat)
    requires NoDup(taken) && Below(taken, n) && id !in taken && id < n
    ensures NoDup(taken + [id]) && Below(taken + [id], n)
  {
  }

  /** Draws and free ids correspond one to one. */
  lemma DrawsCorrespond(taken: seq<nat>, n: nat, x: nat)
    requires NoDup(taken) && Below(taken, n) && x < n && x !in taken
    ensures |Unused(taken, n)| == n - |taken|
    ensures exists r ::
      && 0 <= r < n - |taken| && Unused(taken, n)[r] == x
      && forall q :: 0 <= q < n - |taken| && Unused(taken, n)[q] == x ==> q == r
  {
    UnusedCount(taken, n);
    CountAll(taken, n);
    UnusedOnce(taken, n);
    var s := Unused(taken, n);
    assert x in s;
    var r :| 0 <= r < |s| && s[r] == x;
    assert forall q :: 0 <= q < |s| && s[q] == x ==> q == r;
  }
}
