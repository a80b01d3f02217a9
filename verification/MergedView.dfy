/**
 * The cursor that merges a table's rows with the staged inserts of a transaction and leaves out the staged removes
 * (rococo-dst/memdb/txn.cc:807-933).
 */
module MergedView {
  import opened Seqs
  import opened Options

  /** The rows of table `t` in `base` that are not staged for removal. */
  ghost function Kept(base: seq<nat>, t: nat, removes: set<(nat, nat)>): seq<nat> {
    if base == [] then []
    else (if (t, base[0]) in removes then [] else [base[0]]) + Kept(base[1..], t, removes)
  }

  lemma NoneKept(t: nat, removes: set<(nat, nat)>)
    ensures Kept([], t, removes) == []
  {
  }

  /** Of the two heads the one with the smaller address comes first. */
  ghost function Merge(base: seq<nat>, staged: seq<nat>): seq<nat>
    decreases |base| + |staged|
  {
    if base == [] then staged
    else if staged == [] then base
    else if base[0] < staged[0] then [base[0]] + Merge(base[1..], staged)
    else [staged[0]] + Merge(base, staged[1..])
  }

  /** The head the merge takes next. */
  lemma MergeHead(base: seq<nat>, staged: seq<nat>)
    ensures base == [] && staged == [] ==> Merge(base, staged) == []
    ensures base == [] && staged != [] ==> Merge(base, staged) == [staged[0]] + Merge(base, staged[1..])
    ensures base != [] && (staged == [] || base[0] < staged[0]) ==>
      Merge(base, staged) == [base[0]] + Merge(base[1..], staged)
    ensures base != [] && staged != [] && base[0] >= staged[0] ==>
      Merge(base, staged) == [staged[0]] + Merge(base, staged[1..])
  {
  }

  /** `out` takes every element of `a` and of `b` once, each list in its own order. */
  ghost predicate Interleaves(out: seq<nat>, a: seq<nat>, b: seq<nat>)
    decreases |out|
  {
    if out == [] then a == [] && b == []
    else
      || (a != [] && a[0] == out[0] && Interleaves(out[1..], a[1..], b))
      || (b != [] && b[0] == out[0] && Interleaves(out[1..], a, b[1..]))
  }

  lemma {:induction false} OneSided(a: seq<nat>)
    ensures Interleaves(a, a, []) && Interleaves(a, [], a)
  {
    if a != [] {
      OneSided(a[1..]);
    }
  }

  lemma {:induction false} MergeInterleaves(base: seq<nat>, staged: seq<nat>)
    ensures Interleaves(Merge(base, staged), base, staged)
    decreases |base| + |staged|
  {
    var out := Merge(base, staged);
    if base == [] || staged == [] {
      OneSided(out);
    } else if base[0] < staged[0] {
      MergeInterleaves(base[1..], staged);
      assert out[1..] == Merge(base[1..], staged);
    } else {
      MergeInterleaves(base, staged[1..]);
      assert out[1..] == Merge(base, staged[1..]);
    }
  }

  /** An interleaving holds each element as often as the two lists together. */
  lemma {:induction false} InterleavedCounts(out: seq<nat>, a: seq<nat>, b: seq<nat>)
    requires Interleaves(out, a, b)
    ensures multiset(out) == multiset(a) + multiset(b)
    decreases |out|
  {
    if out != [] {
      assert out == [out[0]] + out[1..];
      if a != [] && a[0] == out[0] && Interleaves(out[1..], a[1..], b) {
        assert a == [a[0]] + a[1..];
        InterleavedCounts(out[1..], a[1..], b);
      } else {
        assert b == [b[0]] + b[1..];
        InterleavedCounts(out[1..], a, b[1..]);
      }
    }
  }

  lemma {:induction false} KeptExact(base: seq<nat>, t: nat, removes: set<(nat, nat)>, r: nat)
    ensures multiset(Kept(base, t, removes))[r] == if (t, r) in removes then 0 else multiset(base)[r]
  {
    if base != [] {
      KeptExact(base[1..], t, removes, r);
      assert base == [base[0]] + base[1..];
    }
  }

  lemma {:induction false} ReverseCounts(s: seq<nat>)
    ensures multiset(Reverse(s)) == multiset(s)
  {
    if s != [] {
      ReverseCounts(s[1..]);
      assert s == [s[0]] + s[1..];
      assert Reverse(s) == Reverse(s[1..]) + [s[0]];
    }
  }

  lemma {:induction false} DistinctCount(s: seq<nat>, r: nat)
    requires NoDup(s)
    ensures multiset(s)[r] == if r in s then 1 else 0
  {
    if s != [] {
      DistinctCount(s[1..], r);
      assert s == [s[0]] + s[1..];
    }
  }

  class MergedCursor {
    const table: nat
    const reverse: bool
    const inserts: seq<nat>
    const removes: set<(nat, nat)>
    var base: seq<nat>
    var taken: nat
    var cached: bool
    var cachedNext: nat
    var candidate: Option<nat>

    ghost predicate Valid()
      reads this
    {
      taken <= |inserts|
    }

    /** The staged rows still to come. */
    ghost function Queue(): seq<nat>
      reads this
      requires Valid()
    {
      (if reverse then Reverse(inserts) else inserts)[taken..]
    }

    ghost function Waiting(): seq<nat>
      reads this
    {
      (if candidate.Some? then [candidate.value] else []) + Kept(base, table, removes)
    }

    /** The rows the cursor has still to give. */
    ghost function Remaining(): seq<nat>
      reads this
      requires Valid()
    {
      (if cached then [cachedNext] else []) + Merge(Waiting(), Queue())
    }

    constructor (table: nat, base: seq<nat>, inserts: seq<nat>, reverse: bool, removes: set<(nat, nat)>)
      ensures Valid()
      ensures Remaining() == Merge(Kept(base, table, removes), if reverse then Reverse(inserts) else inserts)
    {
      this.table, this.base, this.inserts, this.reverse, this.removes := table, base, inserts, reverse, removes;
      taken, cached, cachedNext, candidate := 0, false, 0, None;
      new;
      assert Waiting() == Kept(base, table, removes);
      assert Queue() == if reverse then Reverse(inserts) else inserts;
    }

    method InsertHasNext() returns (more: bool)
      requires Valid()
      ensures more <==> Queue() != []
    {
      more := taken != |inserts|;
    }

    method InsertGetNext() returns (row: nat)
      requires Valid() && Queue() != []
      ensures row == Queue()[0]
    {
      row := if reverse then inserts[|inserts| - 1 - taken] else inserts[taken];
    }

    method InsertAdvanceNext()
      requires Valid() && Queue() != []
      modifies this`taken
      ensures Valid() && Queue() == old(Queue())[1..]
    {
      taken := taken + 1;
    }

    /** Moves the next row of the table that is not removed into `candidate`. */
    method SkipRemoved()
      requires Valid()
      modifies this`base, this`candidate
      ensures Waiting() == old(Waiting())
      ensures candidate == None ==> base == []
    {
      while candidate == None && base != []
        invariant Waiting() == old(Waiting())
        decreases |base|, candidate.None?
      {
        candidate := Some(base[0]);
        base := base[1..];
        if (table, candidate.value) in removes {
          candidate := None;
        }
      }
    }

    method PrefetchNext() returns (ok: bool)
      requires Valid() && !cached
      modifies this
      ensures Valid() && Remaining() == old(Remaining())
      ensures ok == cached == (old(Remaining()) != [])
    {
      hide Kept, Reverse, Merge;
      SkipRemoved();
      MergeHead(Waiting(), Queue());
      ghost var kept := Kept(base, table, removes);
      var more := InsertHasNext();
      if candidate == None {
        assert Waiting() == [] by { NoneKept(table, removes); }
        if more {
          cached := true;
          cachedNext := InsertGetNext();
          InsertAdvanceNext();
        }
      } else {
        assert Waiting()[0] == candidate.value && Waiting()[1..] == kept;
        cached := true;
        if more {
          var staged := InsertGetNext();
          if candidate.value < staged {
            cachedNext := candidate.value;
            candidate := None;
            assert Waiting() == kept;
          } else {
            cachedNext := staged;
            InsertAdvanceNext();
          }
        } else {
          cachedNext := candidate.value;
          candidate := None;
          assert Waiting() == kept;
        }
      }
      ok := cached;
    }

    method HasNext() returns (more: bool)
      requires Valid()
      modifies this
      ensures Valid() && Remaining() == old(Remaining())
      ensures more == cached == (Remaining() != [])
    {
      if cached {
        more := true;
      } else {
        more := PrefetchNext();
      }
    }

    method Next() returns (row: nat)
      requires Valid() && Remaining() != []
      modifies this
      ensures Valid() && [row] + Remaining() == old(Remaining())
    {
      if !cached {
        var _ := PrefetchNext();
      }
      cached := false;
      row := cachedNext;
    }
  }
}
