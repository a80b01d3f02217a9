/** The snapshot objects as they work: fields updated in place, walks around the circle, loops over the map. */
module Snapshots {
  import opened Seqs
  import opened Options
  import opened SnapshotData
  import opened SnapshotRing
  import opened SnapshotSpec
  import opened SnapshotProof
  import opened SnapshotMap
  import SnapshotRuns

  /** The walk around the circle from member `x` meets `s` in order. */
  ghost predicate Walk(h: Heap, x: nat, s: seq<nat>) {
    && x in h.ver && x in h.ssg && s != [] && s[0] == x && NoDup(s) && MembersOf(h, h.ssg[x], s)
    && forall i :: 0 <= i < |s| ==> s[i] in h.next && h.next[s[i]] == s[Succ(i, |s|)]
  }

  lemma FindWalk(h: Heap, rings: Rings, x: nat) returns (s: seq<nat>, k: nat)
    requires Valid(h, rings) && x in h.ver
    ensures k < |rings[h.ssg[x]]| && s == Rotated(rings[h.ssg[x]], k) && Walk(h, x, s)
  {
    var ring := rings[h.ssg[x]];
    assert GroupOk(h, h.ssg[x], ring);
    k := Position(h, rings, x);
    Rotate(h.next, h.prev, ring, k);
    s := Rotated(ring, k);
    forall i | 0 <= i < |s|
      ensures s[i] in h.next && h.next[s[i]] == s[Succ(i, |s|)]
    {
      assert LinkedAt(h.next, h.prev, s, i);
    }
    assert forall y :: y in s <==> y in ring;
  }

  class Snapshots {
    var ver: map<nat, nat>
    var prev: map<nat, nat>
    var next: map<nat, nat>
    var ssg: map<nat, nat>
    var groups: map<nat, Group>
    ghost var rings: Rings

    ghost function H(): Heap
      reads this
    {
      Heap(ver, prev, next, ssg, groups)
    }

    ghost predicate Ok()
      reads this
    {
      Valid(H(), rings)
    }

    constructor ()
      ensures Ok() && H() == Heap(map[], map[], map[], map[], map[])
    {
      ver, prev, next, ssg, groups, rings := map[], map[], map[], map[], map[], map[];
    }

    method Create(id: nat, g: nat)
      requires Ok() && id !in ver && g !in groups
      modifies this
      ensures Ok() && H() == Created(old(H()), id, g)
    {
      hide GroupOk, Abs;
      CreateOk(H(), rings, id, g);
      ver, prev, next, ssg := ver[id := 0], prev[id := id], next[id := id], ssg[id := g];
      groups := groups[g := Group([], Some(id), 0, 0)];
      rings := rings[g := [id]];
    }

    /** The pair comes into view at place `p`, behind those with keys up to its own. */
    method Insert(id: nat, k: int, x: int) returns (ghost p: nat)
      requires Ok() && id in ver && IsWriter(H(), id)
      modifies this
      ensures Ok() && H() == Inserted(old(H()), id, k, x) && id in ver
      ensures var was := old(View(H(), id));
        && p <= |was| && View(H(), id) == was[..p] + [(k, x)] + was[p..]
        && (forall i :: 0 <= i < p ==> was[i].0 <= k) && (p < |was| ==> k < was[p].0)
    {
      hide GroupOk, Abs, View, Put, PutPair;
      InsertedView(H(), rings, id, k, x);
      p := PutPlace(View(H(), id), (k, x));
      ver := ver[id := ver[id] + 1];
      var grp := groups[ssg[id]];
      groups := groups[ssg[id] := grp.(data := Put(grp.data, Entry(k, x, ver[id], None)), ins := grp.ins + 1)];
    }

    /** Erase of all matches, by key or by key and value; `at` are the places of the pairs that stay in view. */
    method Erase(id: nat, w: Which) returns (ghost at: seq<nat>)
      requires Ok() && id in ver && IsWriter(H(), id)
      modifies this
      ensures Ok() && H() == Erased(old(H()), id, w) && id in ver
      ensures Selected(old(View(H(), id)), View(H(), id), at)
      ensures w.ByKey? ==> forall j: nat ::
        j < |old(View(H(), id))| ==> (j in at <==> old(View(H(), id))[j].0 != w.k)
      ensures w.ByPair? ==> forall j: nat ::
        j < |old(View(H(), id))| ==> (j in at <==> old(View(H(), id))[j] != (w.k, w.x))
    {
      hide GroupOk, Abs, View, Mark, Drop, Marks, Sorted, UpTo, Selected, Without;
      ErasedView(H(), rings, id, w);
      at := ErasedPairs(View(H(), id), w);
      WriterData(H(), rings, id);
      var origVer := ver[id];
      ver := ver[id := ver[id] + 1];
      var grp := groups[ssg[id]];
      if prev[id] != id {
        var d, n := EraseMarking(grp.data, w, origVer, ver[id]);
        groups := groups[ssg[id] := grp.(data := d, era := grp.era + n)];
      } else {
        var d := EraseDropping(grp.data, w);
        groups := groups[ssg[id] := grp.(data := d)];
      }
    }

    /** `make_me_snapshot_of`: the four link updates in their order. */
    method MakeSnapshot(src: nat, id: nat)
      requires Ok() && src in ver && id !in ver
      modifies this
      ensures Ok() && H() == Snapshotted(old(H()), src, id)
    {
      hide GroupOk, Abs, View, Valid;
      ghost var rings' := SnapshotOk(H(), rings, src, id);
      Present(H(), rings, src);
      ver := ver[id := ver[src]];
      ssg := ssg[id := ssg[src]];
      prev := prev[id := prev[src]];
      next := next[id := src];
      next := next[prev[src] := id];
      prev := prev[src := id];
      var grp := groups[ssg[src]];
      if grp.writer == Some(src) {
        groups := groups[ssg[src] := grp.(ins := 0, era := 0)];
      }
      rings := rings';
    }

    /** The first loop of `gc_run`: once around the circle for the lowest version. */
    method LowestVersion(id: nat) returns (low: nat)
      requires Ok() && id in ver
      ensures low == Low(H(), ssg[id])
    {
      hide Valid, Low, Walk;
      ghost var s, k := FindWalk(H(), rings, id);
      WalkStarts(H(), id, s);
      low := ver[id];
      var q, first := id, true;
      ghost var i := 0;
      while first || q != id
        invariant i <= |s| && (first <==> i == 0) && q == At(s, i, id) && LowSoFar(ver, s, i, low)
        decreases |s| - i
      {
        WalkStep(H(), id, s, i);
        LowStep(ver, s, i, low);
        if ver[q] < low {
          low := ver[q];
        }
        q := next[q];
        first := false;
        i := i + 1;
      }
      WalkEnds(H(), id, s, i);
      LowIs(H(), id, s, low);
    }

    method GcRun(id: nat)
      requires Ok() && id in ver
      modifies this
      ensures Ok() && H() == Collected(old(H()), old(ssg[id]), Low(old(H()), old(ssg[id])))
      ensures forall e ::
        e in groups[ssg[id]].data <==> e in old(groups[ssg[id]].data) && !PastAll(old(H()), ssg[id], e)
    {
      hide GroupOk, Abs, Low, Collect, PastAll;
      forall e
        ensures e in Collected(H(), ssg[id], Low(H(), ssg[id])).groups[ssg[id]].data <==>
          e in groups[ssg[id]].data && !PastAll(H(), ssg[id], e)
      {
        CollectedExact(H(), ssg[id], id, e);
      }
      CollectOk(H(), rings, ssg[id], Low(H(), ssg[id]));
      var low := LowestVersion(id);
      var grp := groups[ssg[id]];
      var d := CollectGarbage(grp.data, low);
      groups := groups[ssg[id] := grp.(data := d, ins := 0, era := 0)];
    }

    /** Leaving a circle in which others remain. */
    method Unlink(id: nat)
      requires Ok() && id in ver && prev[id] != id && !IsWriter(H(), id)
      modifies this
      ensures Ok() && H() == Unlinked(old(H()), id)
    {
      hide GroupOk, Abs, View;
      ghost var rings' := UnlinkOk(H(), rings, id);
      Neighbours(H(), rings, id);
      hide Valid;
      var p, n := prev[id], next[id];
      next := next[p := n];
      prev := prev[n := p];
      ver, prev, next, ssg := ver - {id}, prev - {id}, next - {id}, ssg - {id};
      rings := rings';
    }

    method RemoveLast(id: nat)
      requires Ok() && id in ver && prev[id] == id
      modifies this
      ensures Ok() && H() == LastGone(old(H()), id)
    {
      hide GroupOk, Abs;
      LastOk(H(), rings, id);
      var g := ssg[id];
      ver, prev, next, ssg := ver - {id}, prev - {id}, next - {id}, ssg - {id};
      groups, rings := groups - {g}, rings - {g};
    }

    method Disown(id: nat) returns (autoGc: bool)
      requires Ok() && id in ver
      modifies this`groups
      ensures Ok() && H() == Disowned(old(H()), id)
      ensures var grp := old(groups)[ssg[id]];
        && (autoGc <==> grp.writer == Some(id) && 16 <= grp.ins + grp.era && |grp.data| / 2 <= grp.ins + grp.era)
        && (autoGc <==> grp.writer == Some(id) && AutoGc(grp))
    {
      hide GroupOk, Abs;
      DisownOk(H(), rings, id);
      autoGc := false;
      var grp := groups[ssg[id]];
      if grp.writer == Some(id) {
        if grp.ins + grp.era >= 16 && grp.ins + grp.era >= |grp.data| / 2 {
          autoGc := true;
        }
        groups := groups[ssg[id] := grp.(writer := None)];
      }
    }

    /**
     * `destroy_me`. The object is off the circle before the next one collects, and its own fields play no part in that,
     * so they are cleared here at once.
     */
    method Destroy(id: nat)
      requires Ok() && id in ver
      modifies this
      ensures Ok() && H() == Destroyed(old(H()), id)
    {
      hide GroupOk, Low, Collected, AutoGc, Unlinked, LastGone;
      Neighbours(H(), rings, id);
      var n := next[id];
      if prev[id] == id {
        RemoveLast(id);
      } else {
        var autoGc := Disown(id);
        Neighbours(H(), rings, id);
        UnlinkedFacts(H(), rings, id);
        Unlink(id);
        if autoGc {
          GcRun(n);
        }
      }
    }

    /** The copy constructor; `g` and `tmp` are the new group and the passing snapshot it may need. */
    method CopyFrom(src: nat, id: nat, g: nat, tmp: nat)
      requires Ok() && src in ver && id !in ver && tmp !in ver && tmp != id && g !in groups
      modifies this
      ensures Ok() && SnapshotRuns.Ok(old(H())) && H() == SnapshotRuns.Copied(old(H()), src, id, g, tmp)
    {
      hide GroupOk, Snapshotted, Destroyed, View, Loaded, Filled;
      assert SnapshotRuns.Ok(H());
      if groups[ssg[src]].writer != Some(src) {
        MakeSnapshot(src, id);
      } else {
        SnapshotRuns.Sharing(H(), src, tmp);
        MakeSnapshot(src, tmp);
        assert SnapshotRuns.Ok(H());
        SnapshotRuns.Load(H(), id, g, View(H(), tmp));
        LoadFrom(tmp, id, g);
        Destroy(tmp);
      }
    }

    /** A new writer takes in everything that `tmp` shows. */
    method LoadFrom(tmp: nat, id: nat, g: nat)
      requires Ok() && tmp in ver && id !in ver && g !in groups
      modifies this
      ensures Ok() && H() == SnapshotRuns.LoadedNew(old(H()), id, g, View(old(H()), tmp))
      ensures tmp in ver
    {
      hide GroupOk, Filled;
      ghost var h := H();
      ViewSorted(h, rings, tmp);
      CreatedWriter(h, rings, id, g);
      Create(id, g);
      LoadOk(H(), rings, id, View(h, tmp));
      ver := ver[id := ver[id] + 1];
      var d, n := LoadVisible(groups[ssg[tmp]].data, ver[tmp]);
      groups := groups[g := groups[g].(data := d, ins := groups[g].ins + n)];
    }

    /** `operator=`. */
    method Assign(dst: nat, src: nat, g: nat, tmp: nat)
      requires Ok() && dst in ver && src in ver && tmp !in ver && g !in groups
      modifies this
      ensures Ok() && SnapshotRuns.Ok(old(H())) && H() == SnapshotRuns.Assigned(old(H()), dst, src, g, tmp)
    {
      hide GroupOk, Destroyed;
      assert SnapshotRuns.Ok(H());
      if dst != src {
        SnapshotRuns.Going(H(), dst);
        Destroy(dst);
        CopyFrom(src, dst, g, tmp);
      }
    }

    /**
     * `debug_group_sanity_check` never fails: around the circle the versions go down at most once, and a writer is in
     * the circle and has the highest version.
     */
    method SanityCheck(id: nat) returns (ok: bool)
      requires Ok() && id in ver
      ensures ok
    {
      hide GroupOk, Walk;
      ghost var s, k := FindWalk(H(), rings, id);
      WalkStarts(H(), id, s);
      var w := groups[ssg[id]].writer;
      var writerInGroup, flips := false, 0;
      var q, first := id, true;
      ghost var i := 0;
      while first || q != id
        invariant i <= |s| && (first <==> i == 0) && q == At(s, i, id)
        invariant flips <= if i > |s| - k - 1 then 1 else 0
        invariant writerInGroup <==> w.Some? && w.value in s[..i]
        decreases |s| - i
      {
        WalkStep(H(), id, s, i);
        assert s[..i + 1] == s[..i] + [s[i]];
        if w == Some(q) {
          writerInGroup := true;
        }
        Descent(H(), rings, id, k, i);
        if ver[q] > ver[next[q]] {
          flips := flips + 1;
        }
        q := next[q];
        first := false;
        i := i + 1;
      }
      WalkEnds(H(), id, s, i);
      assert s[..|s|] == s;
      WriterHighest(H(), rings, id);
      ok :=
        && flips < 2
        && (w.Some? ==> writerInGroup && ver[w.value] >= ver[prev[w.value]] && ver[w.value] >= ver[next[w.value]]);
    }
  }

  /** Along the walk the version can only go down where the newest member is followed by the oldest. */
  lemma Descent(h: Heap, rings: Rings, id: nat, k: nat, i: nat)
    requires Valid(h, rings) && id in h.ver && k < |rings[h.ssg[id]]| && i < |rings[h.ssg[id]]|
    ensures var s := Rotated(rings[h.ssg[id]], k);
      && s[i] in h.ver && s[i] in h.next && h.next[s[i]] in h.ver
        && (Walk(h, id, s) && i != |s| - k - 1 ==> h.ver[s[i]] <= h.ver[h.next[s[i]]])
  {
    var ring := rings[h.ssg[id]];
    assert GroupOk(h, h.ssg[id], ring);
    hide GroupOk, Circle;
    var s := Rotated(ring, k);
    RotatedRise(h.ver, ring, k, i);
    assert s[i] in ring;
    Neighbours(h, rings, s[i]);
  }

  lemma RotatedRise(ver: map<nat, nat>, ring: seq<nat>, k: nat, i: nat)
    requires k < |ring| && i < |ring| && (forall x :: x in ring ==> x in ver) && VersionsRise(ver, ring)
    ensures var s := Rotated(ring, k);
      s[i] in ring && s[Succ(i, |s|)] in ring && (i != |s| - k - 1 ==> ver[s[i]] <= ver[s[Succ(i, |s|)]])
  {
    var s, n := Rotated(ring, k), |ring|;
    var a := if i + k < n then i + k else i + k - n;
    assert s[i] == ring[a] && s[Succ(i, n)] == ring[Succ(a, n)];
    assert ring[a] in ring && ring[Succ(a, n)] in ring;
  }

  lemma WriterHighest(h: Heap, rings: Rings, id: nat)
    requires Valid(h, rings) && id in h.ver
    ensures var w := h.groups[h.ssg[id]].writer; w.Some? ==>
      var x := w.value;
      x in h.ver && x in h.prev && x in h.next && h.ssg[x] == h.ssg[id] && h.prev[x] in h.ver && h.next[x] in h.ver &&
      h.ver[h.prev[x]] <= h.ver[x] && h.ver[h.next[x]] <= h.ver[x] && forall s :: Walk(h, id, s) ==> x in s
  {
    hide Circle;
    var g := h.ssg[id];
    var w := h.groups[g].writer;
    if w.Some? {
      assert GroupOk(h, g, rings[g]);
      CircleDistinct(h.next, h.prev, rings[g]);
      assert w.value in rings[g];
      Neighbours(h, rings, w.value);
      NotNewer(h, rings, w.value, h.prev[w.value]);
      NotNewer(h, rings, w.value, h.next[w.value]);
    }
  }

  lemma OnlyMemberFacts(h: Heap, rings: Rings, id: nat)
    requires Valid(h, rings) && id in h.ver && h.prev[id] != id
    ensures h.next[id] != id
  {
    var s := rings[h.ssg[id]];
    assert GroupOk(h, h.ssg[id], s);
    var i := Position(h, rings, id);
    assert LinkedAt(h.next, h.prev, s, i);
  }

  lemma UnlinkedFacts(h: Heap, rings: Rings, id: nat)
    requires Valid(h, rings) && id in h.ver && h.prev[id] != id
    ensures h.next[id] in Unlinked(h, id).ver && h.next[id] in Unlinked(h, id).ssg
    ensures Unlinked(h, id).ssg[h.next[id]] == h.ssg[id]
  {
    Neighbours(h, rings, id);
    OnlyMemberFacts(h, rings, id);
  }

  ghost function At(s: seq<nat>, i: nat, id: nat): nat {
    if i < |s| then s[i] else id
  }

  lemma WalkStarts(h: Heap, x: nat, s: seq<nat>)
    requires Walk(h, x, s)
    ensures s != [] && s[0] == x && LowSoFar(h.ver, s, 0, h.ver[x])
  {
    assert s[0] in s;
  }

  lemma WalkStep(h: Heap, x: nat, s: seq<nat>, i: nat)
    requires Walk(h, x, s) && i <= |s| && (i == 0 || At(s, i, x) != x)
    ensures i < |s| && s[i] in h.ver && s[i] in h.next && h.next[s[i]] == At(s, i + 1, x)
  {
    assert s[i] in s;
  }

  /** Coming back to the start means that everyone was met. */
  lemma WalkEnds(h: Heap, x: nat, s: seq<nat>, i: nat)
    requires Walk(h, x, s) && 0 < i <= |s| && At(s, i, x) == x
    ensures i == |s|
  {
  }

  /** `low` is the version of some member, and of those met so far none is lower. */
  ghost predicate LowSoFar(ver: map<nat, nat>, s: seq<nat>, i: nat, low: nat) {
    && (exists x :: x in s && x in ver && ver[x] == low)
    && forall j :: 0 <= j < i && j < |s| ==> s[j] in ver && low <= ver[s[j]]
  }

  lemma LowStep(ver: map<nat, nat>, s: seq<nat>, i: nat, low: nat)
    requires LowSoFar(ver, s, i, low) && i < |s| && s[i] in ver
    ensures LowSoFar(ver, s, i + 1, if ver[s[i]] < low then ver[s[i]] else low)
  {
    assert s[i] in s;
  }

  lemma LowIs(h: Heap, id: nat, s: seq<nat>, low: nat)
    requires Walk(h, id, s) && LowSoFar(h.ver, s, |s|, low)
    ensures low == Low(h, h.ssg[id])
  {
    var x :| x in s && x in h.ver && h.ver[x] == low;
    var vs := set y | y in h.ver && y in h.ssg && h.ssg[y] == h.ssg[id] :: h.ver[y];
    assert low in vs;
    forall v | v in vs
      ensures low <= v
    {
      var y :| y in h.ver && y in h.ssg && h.ssg[y] == h.ssg[id] && h.ver[y] == v;
      assert y in s;
    }
  }
}
