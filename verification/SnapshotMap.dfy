/** The loops over the shared multimap: bounds of a key, erasing with and without onlookers, collecting, loading. */
module SnapshotMap {
  import opened Options
  import opened SnapshotData
  import opened SnapshotSpec

  /** The entries with key `k` are those in `[lo, hi)`. */
  ghost predicate KeysAt(d: seq<Entry>, k: int, lo: nat, hi: nat) {
    lo <= hi <= |d| && forall i :: 0 <= i < |d| ==> (d[i].key == k <==> lo <= i < hi)
  }

  method KeyRange(d: seq<Entry>, k: int) returns (lo: nat, hi: nat)
    requires Sorted(d)
    ensures lo <= hi <= |d| && KeysAt(d, k, lo, hi)
  {
    lo := 0;
    while lo < |d| && d[lo].key < k
      invariant lo <= |d| && forall i :: 0 <= i < lo ==> d[i].key < k
    {
      lo := lo + 1;
    }
    hi := lo;
    while hi < |d| && d[hi].key <= k
      invariant lo <= hi <= |d| && (forall i :: 0 <= i < lo ==> d[i].key < k)
      invariant (forall i :: lo <= i < hi ==> d[i].key == k)
      invariant forall i :: lo <= i < |d| ==> k <= d[i].key
    {
      hi := hi + 1;
    }
  }

  lemma {:induction false} MarksSplit(d: seq<Entry>, w: Which, orig: nat, n: nat)
    requires n <= |d|
    ensures Marks(d, w, orig) == Marks(d[..n], w, orig) + Marks(d[n..], w, orig)
  {
    if n == 0 {
      assert d[..0] == [] && d[0..] == d;
    } else {
      MarksSplit(d[1..], w, orig, n - 1);
      assert d[..n][1..] == d[1..][..n - 1] && d[1..][n - 1..] == d[n..];
    }
  }

  lemma {:induction false} MarksNone(d: seq<Entry>, w: Which, orig: nat)
    requires forall i :: 0 <= i < |d| ==> d[i].key != w.k
    ensures Marks(d, w, orig) == 0
  {
    if d != [] {
      MarksNone(d[1..], w, orig);
    }
  }

  /** The entries in `[lo, it)` have been dealt with, the others are as they were. */
  ghost predicate MarkedSome(d: seq<Entry>, d': seq<Entry>, w: Which, orig: nat, ver: nat, lo: nat, it: nat) {
    |d'| == |d| && forall i :: 0 <= i < |d| ==> d'[i] == if lo <= i < it then MarkOne(d[i], w, orig, ver) else d[i]
  }

  lemma MarkedNone(d: seq<Entry>, w: Which, orig: nat, ver: nat, lo: nat)
    requires lo <= |d|
    ensures Marks(d[lo..lo], w, orig) == 0 && MarkedSome(d, d, w, orig, ver, lo, lo)
  {
    assert d[lo..lo] == [];
  }

  lemma MarkedNext(d: seq<Entry>, d': seq<Entry>, w: Which, orig: nat, ver: nat, lo: nat, it: nat)
    requires lo <= it < |d| && MarkedSome(d, d', w, orig, ver, lo, it)
    ensures d'[it] == d[it] && MarkedSome(d, d'[it := MarkOne(d[it], w, orig, ver)], w, orig, ver, lo, it + 1)
    ensures d'[it := d[it]] == d'
  {
  }

  lemma MarkedAll(d: seq<Entry>, d': seq<Entry>, w: Which, orig: nat, ver: nat, lo: nat, hi: nat)
    requires MarkedSome(d, d', w, orig, ver, lo, hi)
    requires KeysAt(d, w.k, lo, hi)
    ensures d' == Mark(d, w, orig, ver)
  {
    var m := Mark(d, w, orig, ver);
    assert forall i :: 0 <= i < |d| ==> d'[i] == m[i];
  }

  /** Erasing with onlookers: every visible match is marked, and counted. */
  method EraseMarking(d: seq<Entry>, w: Which, orig: nat, ver: nat) returns (d': seq<Entry>, n: nat)
    requires Sorted(d)
    ensures d' == Mark(d, w, orig, ver) && n == Marks(d, w, orig)
  {
    hide Mark, Marks, Sorted, MarkedSome, KeysAt;
    var lo, hi := KeyRange(d, w.k);
    d', n := d, 0;
    var it := lo;
    MarkedNone(d, w, orig, ver, lo);
    while it < hi
      invariant lo <= it <= hi && |d'| == |d| && n == Marks(d[lo..it], w, orig)
      invariant MarkedSome(d, d', w, orig, ver, lo, it)
    {
      MarksNext(d, w, orig, lo, it);
      MarkedNext(d, d', w, orig, ver, lo, it);
      if ValidAt(d'[it], orig) && Hits(w, Kv(d'[it])) {
        d' := d'[it := d'[it].(removed := Some(ver))];
        n := n + 1;
      }
      it := it + 1;
    }
    MarkedAll(d, d', w, orig, ver, lo, hi);
    MarksOutside(d, w, orig, lo, hi);
  }

  lemma MarksNext(d: seq<Entry>, w: Which, orig: nat, lo: nat, it: nat)
    requires lo <= it < |d|
    ensures Marks(d[lo..it + 1], w, orig) ==
      Marks(d[lo..it], w, orig) + if Hits(w, Kv(d[it])) && ValidAt(d[it], orig) then 1 else 0
  {
    var s := d[lo..it + 1];
    MarksSplit(s, w, orig, it - lo);
    assert s[..it - lo] == d[lo..it] && s[it - lo..] == [d[it]];
    assert Marks([d[it]][1..], w, orig) == 0;
  }

  lemma MarksOutside(d: seq<Entry>, w: Which, orig: nat, lo: nat, hi: nat)
    requires KeysAt(d, w.k, lo, hi)
    ensures Marks(d, w, orig) == Marks(d[lo..hi], w, orig)
  {
    hide Marks;
    MarksSplit(d, w, orig, lo);
    MarksSplit(d[lo..], w, orig, hi - lo);
    assert d[lo..][..hi - lo] == d[lo..hi] && d[lo..][hi - lo..] == d[hi..];
    assert Marks(d[..lo], w, orig) == 0 by {
      assert forall i :: 0 <= i < lo ==> d[..lo][i] == d[i];
      MarksNone(d[..lo], w, orig);
    }
    assert Marks(d[hi..], w, orig) == 0 by {
      assert forall i :: 0 <= i < |d[hi..]| ==> d[hi..][i] == d[hi + i];
      MarksNone(d[hi..], w, orig);
    }
  }

  lemma {:induction false} DropSplit(a: seq<Entry>, b: seq<Entry>, w: Which)
    ensures Drop(a + b, w) == Drop(a, w) + Drop(b, w)
  {
    if a == [] {
      assert a + b == b;
    } else {
      DropSplit(a[1..], b, w);
      assert (a + b)[1..] == a[1..] + b;
      assert [a[0]] + (Drop(a[1..], w) + Drop(b, w)) == ([a[0]] + Drop(a[1..], w)) + Drop(b, w);
    }
  }

  lemma {:induction false} DropNone(d: seq<Entry>, w: Which)
    requires forall i :: 0 <= i < |d| ==> !Hits(w, Kv(d[i]))
    ensures Drop(d, w) == d
  {
    if d != [] {
      DropNone(d[1..], w);
    }
  }

  /** A sequence of which a part `a` is done and the rest is as it was. */
  lemma Cut(a: seq<Entry>, d: seq<Entry>, done: nat)
    requires done < |d|
    ensures var s := a + d[done..];
      s[|a|] == d[done] && s[..|a|] + s[|a| + 1..] == a + d[done + 1..] && s == a + [d[done]] + d[done + 1..]
  {
  }

  lemma DropStep(d: seq<Entry>, w: Which, done: nat)
    requires done < |d|
    ensures Drop(d[..done + 1], w) ==
      if Hits(w, Kv(d[done])) then Drop(d[..done], w) else Drop(d[..done], w) + [d[done]]
  {
    assert d[..done + 1] == d[..done] + [d[done]];
    DropSplit(d[..done], [d[done]], w);
    assert [d[done]][1..] == [];
  }

  lemma DropEnds(d: seq<Entry>, w: Which, lo: nat, hi: nat)
    requires KeysAt(d, w.k, lo, hi)
    ensures Drop(d[..lo], w) == d[..lo] && Drop(d[..hi], w) + d[hi..] == Drop(d, w) && d[..lo] + d[lo..] == d
  {
    DropNone(d[..lo], w);
    DropNone(d[hi..], w);
    DropSplit(d[..hi], d[hi..], w);
    assert d == d[..hi] + d[hi..];
  }

  /** Erasing alone: every match goes, visible or not. */
  method EraseDropping(d: seq<Entry>, w: Which) returns (d': seq<Entry>)
    requires Sorted(d)
    ensures d' == Drop(d, w)
  {
    hide Drop, Sorted, KeysAt;
    var lo, hi := KeyRange(d, w.k);
    ghost var done := lo;
    d' := d;
    var it, end := lo, hi;
    DropEnds(d, w, lo, hi);
    while it < end
      invariant lo <= done <= hi <= |d| && it + (hi - done) == end
      invariant it == |Drop(d[..done], w)| && d' == Drop(d[..done], w) + d[done..]
    {
      Cut(Drop(d[..done], w), d, done);
      DropStep(d, w, done);
      if Hits(w, Kv(d'[it])) {
        d' := d'[..it] + d'[it + 1..];
        end := end - 1;
      } else {
        it := it + 1;
      }
      done := done + 1;
    }
  }

  lemma {:induction false} CollectSplit(a: seq<Entry>, b: seq<Entry>, low: nat)
    ensures Collect(a + b, low) == Collect(a, low) + Collect(b, low)
  {
    if a == [] {
      assert a + b == b;
    } else {
      CollectSplit(a[1..], b, low);
      assert (a + b)[1..] == a[1..] + b;
      assert [a[0]] + (Collect(a[1..], low) + Collect(b, low)) == ([a[0]] + Collect(a[1..], low)) + Collect(b, low);
    }
  }

  lemma CollectStep(d: seq<Entry>, low: nat, done: nat)
    requires done < |d|
    ensures Collect(d[..done + 1], low) ==
      if Garbage(d[done], low) then Collect(d[..done], low) else Collect(d[..done], low) + [d[done]]
  {
    assert d[..done + 1] == d[..done] + [d[done]];
    CollectSplit(d[..done], [d[done]], low);
    assert [d[done]][1..] == [];
  }

  /** The second loop of `gc_run`. */
  method CollectGarbage(d: seq<Entry>, low: nat) returns (d': seq<Entry>)
    ensures d' == Collect(d, low)
  {
    ghost var done := 0;
    d' := d;
    var it := 0;
    assert Collect(d[..0], low) == [];
    hide Collect;
    while it < |d'|
      invariant done <= |d| && it == |Collect(d[..done], low)| && d' == Collect(d[..done], low) + d[done..]
      decreases |d| - done
    {
      Cut(Collect(d[..done], low), d, done);
      CollectStep(d, low, done);
      if Garbage(d'[it], low) {
        d' := d'[..it] + d'[it + 1..];
      } else {
        it := it + 1;
      }
      done := done + 1;
    }
    assert d[..done] == d;
  }

  /** Inserting everything a range shows: the range skips what its version does not see. */
  method LoadVisible(src: seq<Entry>, v: nat) returns (d: seq<Entry>, n: nat)
    ensures d == Filled(Visible(src, v)) && n == |Visible(src, v)|
  {
    d, n := [], 0;
    hide Put;
    for i := 0 to |src|
      invariant d == Filled(Visible(src[..i], v)) && n == |Visible(src[..i], v)|
    {
      LoadStep(src, v, i);
      hide Filled, Visible;
      if ValidAt(src[i], v) {
        d := Put(d, Entry(src[i].key, src[i].val, 1, None));
        n := n + 1;
      }
    }
    assert src[..|src|] == src;
  }

  lemma LoadStep(src: seq<Entry>, v: nat, i: nat)
    requires i < |src|
    ensures Visible(src[..i + 1], v) ==
      if ValidAt(src[i], v) then Visible(src[..i], v) + [Kv(src[i])] else Visible(src[..i], v)
    ensures Filled(Visible(src[..i], v) + [Kv(src[i])]) ==
      Put(Filled(Visible(src[..i], v)), Entry(src[i].key, src[i].val, 1, None))
  {
    assert src[..i + 1] == src[..i] + [src[i]];
    VisibleSplit(src[..i], [src[i]], v);
    var s := Visible(src[..i], v);
    assert (s + [Kv(src[i])])[..|s|] == s;
  }

  lemma {:induction false} VisibleSplit(a: seq<Entry>, b: seq<Entry>, v: nat)
    ensures Visible(a + b, v) == Visible(a, v) + Visible(b, v)
    ensures |b| == 1 ==> Visible(b, v) == if ValidAt(b[0], v) then [Kv(b[0])] else []
  {
    if |b| == 1 {
      assert b[1..] == [];
    }
    if a == [] {
      assert a + b == b;
    } else {
      VisibleSplit(a[1..], b, v);
      assert (a + b)[1..] == a[1..] + b;
      assert [Kv(a[0])] + (Visible(a[1..], v) + Visible(b, v)) == ([Kv(a[0])] + Visible(a[1..], v)) + Visible(b, v);
    }
  }
}
