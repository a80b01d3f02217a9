/** Each operation on the shared maps does to the family of copies what it would do to one private copy. */
module SnapshotProof {
  import opened Seqs
  import opened Options
  import opened SnapshotData
  import opened SnapshotRing
  import opened SnapshotSpec

  /** `h'` differs from `h` in the map and the versions of group `g` only. */
  ghost predicate Rewrites(h: Heap, h': Heap, g: nat) {
    && g in h.groups && g in h'.groups && h' == h.(ver := h'.ver, groups := h.groups[g := h'.groups[g]])
    && h'.groups[g].writer == h.groups[g].writer && h'.ver.Keys == h.ver.Keys
    && forall x :: x in h.ver && x in h.ssg && h.ssg[x] != g ==> h'.ver[x] == h.ver[x]
  }

  lemma OtherGroup(h: Heap, h': Heap, g: nat, g2: nat, s: seq<nat>)
    requires Rewrites(h, h', g) && g2 in h.groups && g2 != g && GroupOk(h, g2, s)
    ensures g2 in h'.groups && GroupOk(h', g2, s)
  {
    hide Circle, Sorted, UpTo;
    assert h'.groups[g2] == h.groups[g2];
    forall i | 0 <= i < |s|
      ensures h'.ver[s[i]] == h.ver[s[i]]
    {
      assert s[i] in s;
    }
    CircleDistinct(h.next, h.prev, s);
    assert s[|s| - 1] in s;
  }

  lemma RewriteOk(h: Heap, h': Heap, rings: Rings, g: nat)
    requires Valid(h, rings) && Rewrites(h, h', g)
    requires (forall x :: x in rings[g] ==> x in h'.ver) && VersionsRise(h'.ver, rings[g])
    requires DataOk(h'.groups[g], h'.ver, rings[g])
    ensures Valid(h', rings)
  {
    hide Circle, Sorted, UpTo;
    forall g2 | g2 in h'.groups
      ensures GroupOk(h', g2, rings[g2])
    {
      assert GroupOk(h, g2, rings[g2]);
      if g2 != g {
        OtherGroup(h, h', g, g2, rings[g2]);
      }
    }
  }

  /** The family after member `id` gets new content. */
  ghost function Replaced(f: Family, id: nat, s: Pairs): Family {
    f.(copies := f.copies[id := s])
  }

  /** What the operation changed for whom. */
  lemma RewriteAbs(h: Heap, h': Heap, g: nat, id: nat, s: Pairs)
    requires Shaped(h) && Shaped(h') && Rewrites(h, h', g) && id in h.ver && View(h', id) == s
    requires forall x :: x in h.ver && x != id && h.ssg[x] == g ==> View(h', x) == View(h, x)
    requires h.ssg[id] == g
    ensures Abs(h') == Replaced(Abs(h), id, s)
  {
    hide Visible;
    forall x | x in h.ver
      ensures View(h', x) == (if x == id then s else View(h, x)) && (IsWriter(h', x) <==> IsWriter(h, x))
    {
    }
    assert Abs(h').copies == Replaced(Abs(h), id, s).copies;
    assert Abs(h').writers == Abs(h).writers;
  }

  /** An operation of the writer raises its version; the order of the circle stays. */
  lemma WriterRises(h: Heap, h': Heap, rings: Rings, id: nat)
    requires Valid(h, rings) && id in h.ver && IsWriter(h, id) && Rewrites(h, h', h.ssg[id])
    requires (forall x :: x in h.ver && x != id ==> h'.ver[x] == h.ver[x]) && h'.ver[id] >= h.ver[id]
    requires Sorted(h'.groups[h.ssg[id]].data) && UpTo(h'.groups[h.ssg[id]].data, h'.ver[id])
    ensures Valid(h', rings)
  {
    hide Circle, Sorted, UpTo;
    var g := h.ssg[id];
    assert GroupOk(h, g, rings[g]);
    var s := rings[g];
    assert s[|s| - 1] == id && NoDup(s) by {
      CircleDistinct(h.next, h.prev, s);
    }
    forall i, j | 0 <= i < j < |s|
      ensures h'.ver[s[i]] <= h'.ver[s[j]]
    {
      assert s[i] in s && s[j] in s && s[i] != id;
    }
    RewriteOk(h, h', rings, g);
  }

  lemma CircleDistinct(next: map<nat, nat>, prev: map<nat, nat>, s: seq<nat>)
    requires Circle(next, prev, s)
    ensures s != [] && NoDup(s)
  {
  }

  /** An operation of the writer: its own view changes, everybody else's does not. */
  lemma WriterOp(h: Heap, h': Heap, rings: Rings, id: nat, s: Pairs)
    requires Valid(h, rings) && id in h.ver && IsWriter(h, id) && Rewrites(h, h', h.ssg[id])
    requires (forall x :: x in h.ver && x != id ==> h'.ver[x] == h.ver[x]) && h'.ver[id] >= h.ver[id]
    requires Sorted(h'.groups[h.ssg[id]].data) && UpTo(h'.groups[h.ssg[id]].data, h'.ver[id])
    requires Visible(h'.groups[h.ssg[id]].data, h'.ver[id]) == s
    requires forall v :: v <= h.ver[id] && MemberVersion(h, id, v) ==>
      Visible(h'.groups[h.ssg[id]].data, v) == Visible(h.groups[h.ssg[id]].data, v)
    ensures Valid(h', rings) && Abs(h') == Replaced(Abs(h), id, s)
  {
    hide Sorted, UpTo, Visible;
    WriterRises(h, h', rings, id);
    var g := h.ssg[id];
    forall x | x in h.ver && x != id && h.ssg[x] == g
      ensures View(h', x) == View(h, x)
    {
      NotNewer(h, rings, id, x);
      assert MemberVersion(h, id, h.ver[x]);
    }
    hide GroupOk;
    RewriteAbs(h, h', g, id, s);
  }

  /** Some other member of the group of `id` has version `v`. */
  ghost predicate MemberVersion(h: Heap, id: nat, v: nat) {
    exists x :: x in h.ver && x in h.ssg && id in h.ssg && x != id && h.ssg[x] == h.ssg[id] && h.ver[x] == v
  }

  lemma NotNewer(h: Heap, rings: Rings, id: nat, x: nat)
    requires Valid(h, rings) && id in h.ver && IsWriter(h, id) && x in h.ver && h.ssg[x] == h.ssg[id]
    ensures h.ver[x] <= h.ver[id]
  {
    var g := h.ssg[id];
    assert GroupOk(h, g, rings[g]);
    var s := rings[g];
    var i :| 0 <= i < |s| && s[i] == x;
    assert s[|s| - 1] == id;
  }

  lemma WriterData(h: Heap, rings: Rings, id: nat)
    requires Valid(h, rings) && id in h.ver && IsWriter(h, id)
    ensures Sorted(h.groups[h.ssg[id]].data) && UpTo(h.groups[h.ssg[id]].data, h.ver[id])
  {
    assert GroupOk(h, h.ssg[id], rings[h.ssg[id]]);
  }

  lemma PutUpTo(d: seq<Entry>, e: Entry, v: nat)
    requires Sorted(d) && UpTo(d, v) && e.created == v + 1 && e.removed.None?
    ensures Sorted(Put(d, e)) && UpTo(Put(d, e), v + 1)
  {
    PutMembers(d, e);
    forall i | 0 <= i < |Put(d, e)|
      ensures Put(d, e)[i] in d || Put(d, e)[i] == e
    {
      assert Put(d, e)[i] in Put(d, e);
    }
  }

  lemma InsertOk(h: Heap, rings: Rings, id: nat, k: int, x: int)
    requires Valid(h, rings) && id in h.ver && IsWriter(h, id)
    ensures Valid(Inserted(h, id, k, x), rings)
    ensures Abs(Inserted(h, id, k, x)) == Replaced(Abs(h), id, PutPair(View(h, id), (k, x)))
  {
    hide GroupOk, Sorted, UpTo, Visible, Put, PutPair;
    var g, v, h' := h.ssg[id], h.ver[id], Inserted(h, id, k, x);
    var d, e := h.groups[g].data, Entry(k, x, h.ver[id] + 1, None);
    WriterData(h, rings, id);
    PutUpTo(d, e, v);
    VisiblePut(d, e, v + 1);
    VisibleNext(d, v);
    forall u | u <= v && MemberVersion(h, id, u)
      ensures Visible(Put(d, e), u) == Visible(d, u)
    {
      VisiblePut(d, e, u);
    }
    WriterOp(h, h', rings, id, PutPair(View(h, id), (k, x)));
  }

  lemma InsertedView(h: Heap, rings: Rings, id: nat, k: int, x: int)
    requires Valid(h, rings) && id in h.ver && IsWriter(h, id)
    ensures Valid(Inserted(h, id, k, x), rings) && id in Inserted(h, id, k, x).ver
    ensures View(Inserted(h, id, k, x), id) == PutPair(View(h, id), (k, x))
  {
    hide GroupOk, PutPair, View;
    InsertOk(h, rings, id, k, x);
    assert Abs(Inserted(h, id, k, x)).copies[id] == View(Inserted(h, id, k, x), id);
  }

  lemma MarkUpTo(d: seq<Entry>, w: Which, v: nat)
    requires Sorted(d) && UpTo(d, v)
    ensures Sorted(Mark(d, w, v, v + 1)) && UpTo(Mark(d, w, v, v + 1), v + 1)
  {
  }

  lemma DropUpTo(d: seq<Entry>, w: Which, v: nat)
    requires Sorted(d) && UpTo(d, v)
    ensures Sorted(Drop(d, w)) && UpTo(Drop(d, w), v + 1)
  {
    DropMembers(d, w);
    forall i | 0 <= i < |Drop(d, w)|
      ensures Drop(d, w)[i] in d
    {
      assert Drop(d, w)[i] in Drop(d, w);
    }
  }

  /** A writer that is alone in the circle has no other member to consider. */
  lemma AloneInGroup(h: Heap, rings: Rings, id: nat)
    requires Valid(h, rings) && id in h.ver && h.prev[id] == id
    ensures forall v :: !MemberVersion(h, id, v)
  {
    var s := rings[h.ssg[id]];
    assert GroupOk(h, h.ssg[id], s);
    Alone(h.next, h.prev, s, id);
  }

  lemma EraseOk(h: Heap, rings: Rings, id: nat, w: Which)
    requires Valid(h, rings) && id in h.ver && IsWriter(h, id)
    ensures Valid(Erased(h, id, w), rings)
    ensures Abs(Erased(h, id, w)) == Replaced(Abs(h), id, Without(View(h, id), w))
  {
    hide GroupOk, Sorted, UpTo, Visible, Mark, Drop, Without;
    var g, v, h' := h.ssg[id], h.ver[id], Erased(h, id, w);
    var d := h.groups[g].data;
    WriterData(h, rings, id);
    if h.prev[id] != id {
      MarkUpTo(d, w, v);
      VisibleMark(d, w, v);
      forall u | u <= v && MemberVersion(h, id, u)
        ensures Visible(Mark(d, w, v, v + 1), u) == Visible(d, u)
      {
        VisibleMarkBefore(d, w, v, v + 1, u);
      }
    } else {
      DropUpTo(d, w, v);
      VisibleDrop(d, w, v + 1);
      VisibleNext(d, v);
      AloneInGroup(h, rings, id);
    }
    WriterOp(h, h', rings, id, Without(View(h, id), w));
  }

  lemma ErasedView(h: Heap, rings: Rings, id: nat, w: Which)
    requires Valid(h, rings) && id in h.ver && IsWriter(h, id)
    ensures Valid(Erased(h, id, w), rings) && id in Erased(h, id, w).ver
    ensures View(Erased(h, id, w), id) == Without(View(h, id), w)
  {
    hide GroupOk, Without, View;
    EraseOk(h, rings, id, w);
    assert Abs(Erased(h, id, w)).copies[id] == View(Erased(h, id, w), id);
  }

  // ---- Collection

  /** No member of the group is older than `low`. */
  ghost predicate AtLeast(h: Heap, g: nat, low: nat) {
    forall x :: x in h.ver && x in h.ssg && h.ssg[x] == g ==> low <= h.ver[x]
  }

  lemma CollectUpTo(d: seq<Entry>, low: nat, v: nat)
    requires Sorted(d)
    ensures Sorted(Collect(d, low)) && (UpTo(d, v) ==> UpTo(Collect(d, low), v))
  {
    CollectMembers(d, low);
    forall i | 0 <= i < |Collect(d, low)|
      ensures Collect(d, low)[i] in d
    {
      assert Collect(d, low)[i] in Collect(d, low);
    }
  }

  lemma CollectValid(h: Heap, rings: Rings, g: nat, low: nat)
    requires Valid(h, rings) && g in h.groups
    ensures Valid(Collected(h, g, low), rings)
  {
    hide Sorted, UpTo, Circle, Collect, VersionsRise;
    var grp := h.groups[g];
    WriterInside(h, rings, g);
    assert GroupOk(h, g, rings[g]);
    CollectUpTo(grp.data, low, if grp.writer.Some? then h.ver[grp.writer.value] else 0);
    RewriteOk(h, Collected(h, g, low), rings, g);
  }

  lemma CollectViews(h: Heap, g: nat, low: nat)
    requires Shaped(h) && g in h.groups && AtLeast(h, g, low)
    ensures Shaped(Collected(h, g, low)) && Abs(Collected(h, g, low)) == Abs(h)
  {
    hide Visible, Collect;
    var h' := Collected(h, g, low);
    forall x | x in h.ver
      ensures View(h', x) == View(h, x) && (IsWriter(h', x) <==> IsWriter(h, x))
    {
      if h.ssg[x] == g {
        VisibleCollect(h.groups[g].data, low, h.ver[x]);
      }
    }
    assert Abs(h').copies == Abs(h).copies;
    assert Abs(h').writers == Abs(h).writers;
  }

  /** Garbage collection changes nothing that any member can see. */
  lemma CollectOk(h: Heap, rings: Rings, g: nat, low: nat)
    requires Valid(h, rings) && g in h.groups && AtLeast(h, g, low)
    ensures Valid(Collected(h, g, low), rings) && Abs(Collected(h, g, low)) == Abs(h)
  {
    hide GroupOk, Abs, Collected, AtLeast;
    CollectValid(h, rings, g, low);
    CollectViews(h, g, low);
  }

  // ---- Joining

  /** The ring with `id` to the left of position `i`. */
  ghost function Joined(s: seq<nat>, i: nat, id: nat): seq<nat>
    requires i <= |s|
  {
    s[..i] + [id] + s[i..]
  }

  lemma JoinCircle(next: map<nat, nat>, prev: map<nat, nat>, s: seq<nat>, i: nat, id: nat)
    requires Circle(next, prev, s) && i < |s| && id !in s
    ensures s[i] in prev
    ensures Circle(next[id := s[i]][prev[s[i]] := id], prev[id := prev[s[i]]][s[i] := id], Joined(s, i, id))
  {
    Rotate(next, prev, s, i);
    var r := Rotated(s, i);
    assert r[0] == s[i] && forall x :: x in r <==> x in s;
    hide Circle;
    Append(next, prev, r, id);
    Rotate(next[id := s[i]][prev[s[i]] := id], prev[id := prev[s[i]]][s[i] := id], r + [id], |s| - i);
    assert Rotated(r + [id], |s| - i) == Joined(s, i, id);
  }

  /** Groups that the operation does not touch. */
  lemma UntouchedGroup(h: Heap, h': Heap, g2: nat, s: seq<nat>)
    requires g2 in h.groups && g2 in h'.groups && h'.groups[g2] == h.groups[g2] && GroupOk(h, g2, s)
    requires MembersOf(h', g2, s)
    requires forall x :: x in s ==> x in h'.ver && h'.ver[x] == h.ver[x]
    requires forall x :: x in s && x in h.next ==> x in h'.next && h'.next[x] == h.next[x]
    requires forall x :: x in s && x in h.prev ==> x in h'.prev && h'.prev[x] == h.prev[x]
    ensures GroupOk(h', g2, s)
  {
    hide Sorted, UpTo;
    Elsewhere(h.next, h.prev, h'.next, h'.prev, s);
    CircleDistinct(h.next, h.prev, s);
    hide Circle;
    assert forall i :: 0 <= i < |s| ==> s[i] in s;
    assert s[|s| - 1] in s;
  }

  lemma JoinRises(ver: map<nat, nat>, s: seq<nat>, i: nat, id: nat)
    requires i < |s| && id !in s && (forall x :: x in s ==> x in ver) && VersionsRise(ver, s)
    ensures VersionsRise(ver[id := ver[s[i]]], Joined(s, i, id))
  {
    var s' := Joined(s, i, id);
    assert forall j :: 0 <= j < |s'| ==> s'[j] == if j < i then s[j] else if j == i then id else s[j - 1];
    assert forall j :: 0 <= j < |s| ==> s[j] in s;
  }

  lemma JoinData(grp: Group, ver: map<nat, nat>, s: seq<nat>, i: nat, id: nat)
    requires i < |s| && id !in s && (forall x :: x in s ==> x in ver) && DataOk(grp, ver, s)
    ensures DataOk(grp, ver[id := ver[s[i]]], Joined(s, i, id))
    ensures DataOk(grp.(ins := 0, era := 0), ver[id := ver[s[i]]], Joined(s, i, id))
  {
    var s' := Joined(s, i, id);
    assert s'[|s'| - 1] == s[|s| - 1] && s[|s| - 1] in s;
  }

  lemma JoinGroup(h: Heap, rings: Rings, src: nat, id: nat, i: nat)
    requires Valid(h, rings) && src in h.ver && id !in h.ver && i < |rings[h.ssg[src]]| && rings[h.ssg[src]][i] == src
    ensures GroupOk(Snapshotted(h, src, id), h.ssg[src], Joined(rings[h.ssg[src]], i, id))
  {
    var g, h' := h.ssg[src], Snapshotted(h, src, id);
    var s := rings[g];
    assert GroupOk(h, g, s);
    hide Circle, VersionsRise, DataOk;
    JoinCircle(h.next, h.prev, s, i, id);
    JoinRises(h.ver, s, i, id);
    JoinData(h.groups[g], h.ver, s, i, id);
    assert forall x :: x in Joined(s, i, id) <==> x in s || x == id;
  }

  lemma JoinUntouched(h: Heap, rings: Rings, src: nat, id: nat, g2: nat)
    requires Valid(h, rings) && src in h.ver && id !in h.ver && g2 in h.groups && g2 != h.ssg[src]
    ensures GroupOk(Snapshotted(h, src, id), g2, rings[g2])
  {
    hide Circle, DataOk, VersionsRise;
    var g, h' := h.ssg[src], Snapshotted(h, src, id);
    assert GroupOk(h, g, rings[g]) && GroupOk(h, g2, rings[g2]);
    Neighbours(h, rings, src);
    UntouchedGroup(h, h', g2, rings[g2]);
  }

  /** The neighbours of a member belong to its group. */
  lemma Present(h: Heap, rings: Rings, x: nat)
    requires Valid(h, rings) && x in h.ver
    ensures x in h.ssg && x in h.prev && x in h.next && h.ssg[x] in h.groups
  {
  }

  lemma Neighbours(h: Heap, rings: Rings, x: nat)
    requires Valid(h, rings) && x in h.ver
    ensures h.prev[x] in h.ver && h.ssg[h.prev[x]] == h.ssg[x] && h.next[x] in h.ver && h.ssg[h.next[x]] == h.ssg[x]
  {
    hide Circle, DataOk, VersionsRise;
    var s := rings[h.ssg[x]];
    assert GroupOk(h, h.ssg[x], s);
    var i :| 0 <= i < |s| && s[i] == x;
    PrevInside(h.next, h.prev, s, i);
  }

  lemma SnapshotValid(h: Heap, rings: Rings, src: nat, id: nat) returns (rings': Rings)
    requires Valid(h, rings) && src in h.ver && id !in h.ver
    ensures Valid(Snapshotted(h, src, id), rings')
  {
    hide GroupOk;
    var g, h' := h.ssg[src], Snapshotted(h, src, id);
    var i := Position(h, rings, src);
    rings' := rings[g := Joined(rings[g], i, id)];
    JoinGroup(h, rings, src, id, i);
    Neighbours(h, rings, src);
    assert h'.prev.Keys == h'.next.Keys == h'.ssg.Keys == h'.ver.Keys;
    forall g2 | g2 in h'.groups && g2 != g
      ensures GroupOk(h', g2, rings'[g2])
    {
      JoinUntouched(h, rings, src, id, g2);
    }
  }

  lemma Position(h: Heap, rings: Rings, x: nat) returns (i: nat)
    requires Valid(h, rings) && x in h.ver
    ensures i < |rings[h.ssg[x]]| && rings[h.ssg[x]][i] == x
  {
    assert GroupOk(h, h.ssg[x], rings[h.ssg[x]]);
    i :| 0 <= i < |rings[h.ssg[x]]| && rings[h.ssg[x]][i] == x;
  }

  lemma PrevInside(next: map<nat, nat>, prev: map<nat, nat>, s: seq<nat>, i: nat)
    requires Circle(next, prev, s) && i < |s|
    ensures s[i] in prev && prev[s[i]] in s && s[i] in next && next[s[i]] in s
  {
    var p: int := if i == 0 then |s| - 1 else i - 1;
    assert LinkedAt(next, prev, s, p) && LinkedAt(next, prev, s, i);
  }

  /** A snapshot starts out as a copy of its source, which nobody can write. */
  lemma SnapshotOk(h: Heap, rings: Rings, src: nat, id: nat) returns (rings': Rings)
    requires Valid(h, rings) && src in h.ver && id !in h.ver
    ensures Valid(Snapshotted(h, src, id), rings')
    ensures Abs(Snapshotted(h, src, id)) == Replaced(Abs(h), id, View(h, src))
  {
    hide GroupOk, Visible;
    rings' := SnapshotValid(h, rings, src, id);
    var h' := Snapshotted(h, src, id);
    WriterInside(h, rings, h.ssg[src]);
    forall x | x in h'.ver
      ensures View(h', x) == (if x == id then View(h, src) else View(h, x))
      ensures IsWriter(h', x) <==> x != id && IsWriter(h, x)
    {
    }
    assert Abs(h').copies == Replaced(Abs(h), id, View(h, src)).copies;
    assert Abs(h').writers == Abs(h).writers;
  }

  lemma WriterInside(h: Heap, rings: Rings, g: nat)
    requires Valid(h, rings) && g in h.groups
    ensures h.groups[g].writer.Some? ==> h.groups[g].writer.value in h.ver
  {
    var s := rings[g];
    assert GroupOk(h, g, s);
    CircleDistinct(h.next, h.prev, s);
    assert s[|s| - 1] in s;
  }

  // ---- Leaving

  lemma DisownValid(h: Heap, rings: Rings, id: nat)
    requires Valid(h, rings) && id in h.ver
    ensures Valid(Disowned(h, id), rings)
  {
    hide Circle, VersionsRise, Sorted, UpTo;
    var h' := Disowned(h, id);
    forall g | g in h'.groups
      ensures GroupOk(h', g, rings[g])
    {
      assert GroupOk(h, g, rings[g]);
    }
  }

  /** The writer gives up its right to write. */
  lemma DisownOk(h: Heap, rings: Rings, id: nat)
    requires Valid(h, rings) && id in h.ver
    ensures Valid(Disowned(h, id), rings) && Abs(Disowned(h, id)) == Family(Abs(h).copies, Abs(h).writers - {id})
  {
    hide GroupOk, Visible;
    DisownValid(h, rings, id);
    var h' := Disowned(h, id);
    forall x | x in h.ver
      ensures View(h', x) == View(h, x) && (IsWriter(h', x) <==> x != id && IsWriter(h, x))
    {
    }
    assert Abs(h').copies == Abs(h).copies;
    assert Abs(h').writers == Abs(h).writers - {id};
  }

  ghost function Left(s: seq<nat>, i: nat): seq<nat>
    requires i < |s|
  {
    s[..i] + s[i + 1..]
  }

  lemma LeaveCircle(next: map<nat, nat>, prev: map<nat, nat>, s: seq<nat>, i: nat)
    requires Circle(next, prev, s) && i < |s| && |s| > 1
    ensures s[i] in prev && s[i] in next
    ensures Circle(next[prev[s[i]] := next[s[i]]] - {s[i]}, prev[next[s[i]] := prev[s[i]]] - {s[i]}, Left(s, i))
    ensures forall y :: y in Left(s, i) <==> y in s && y != s[i]
  {
    var x := s[i];
    CircleDistinct(next, prev, s);
    LeftMembers(s, i);
    Rotate(next, prev, s, i);
    var r := Rotated(s, i);
    assert r[0] == x;
    hide Circle;
    Leave(next, prev, r);
    var next', prev' := next[prev[x] := next[x]], prev[next[x] := prev[x]];
    Rotate(next', prev', r[1..], |s| - i - 1);
    assert Rotated(r[1..], |s| - i - 1) == Left(s, i);
    Elsewhere(next', prev', next' - {x}, prev' - {x}, Left(s, i));
  }

  lemma LeftMembers(s: seq<nat>, i: nat)
    requires NoDup(s) && i < |s|
    ensures forall y :: y in Left(s, i) <==> y in s && y != s[i]
  {
    forall y | y in s && y != s[i]
      ensures y in Left(s, i)
    {
      var j :| 0 <= j < |s| && s[j] == y;
      assert j < i ==> Left(s, i)[j] == y;
      assert j > i ==> Left(s, i)[j - 1] == y;
    }
  }

  lemma LeaveRises(ver: map<nat, nat>, s: seq<nat>, i: nat)
    requires i < |s| && NoDup(s) && (forall x :: x in s ==> x in ver) && VersionsRise(ver, s)
    ensures (forall x :: x in Left(s, i) ==> x in ver - {s[i]}) && VersionsRise(ver - {s[i]}, Left(s, i))
  {
    LeftMembers(s, i);
    var s' := Left(s, i);
    hide NoDup;
    forall j, k | 0 <= j < k < |s'|
      ensures s'[j] in ver - {s[i]} && s'[k] in ver - {s[i]} && ver[s'[j]] <= ver[s'[k]]
    {
      LeftAt(s, i, j);
      LeftAt(s, i, k);
      assert s'[j] in s' && s'[k] in s';
    }
  }

  lemma LeftAt(s: seq<nat>, i: nat, j: nat)
    requires i < |s| && j < |s| - 1
    ensures |Left(s, i)| == |s| - 1 && Left(s, i)[j] == s[if j < i then j else j + 1]
  {
  }

  lemma LeaveData(grp: Group, ver: map<nat, nat>, s: seq<nat>, i: nat)
    requires i < |s| && |s| > 1 && NoDup(s) && (forall x :: x in s ==> x in ver) && DataOk(grp, ver, s)
    requires grp.writer != Some(s[i])
    ensures (forall x :: x in Left(s, i) ==> x in ver - {s[i]}) && DataOk(grp, ver - {s[i]}, Left(s, i))
  {
    LeftMembers(s, i);
    var s' := Left(s, i);
    assert i < |s| - 1 ==> s'[|s'| - 1] == s[|s| - 1];
  }

  lemma LeaveGroup(h: Heap, rings: Rings, id: nat, i: nat)
    requires Valid(h, rings) && id in h.ver && h.prev[id] != id && !IsWriter(h, id)
    requires i < |rings[h.ssg[id]]| && rings[h.ssg[id]][i] == id
    ensures GroupOk(Unlinked(h, id), h.ssg[id], Left(rings[h.ssg[id]], i))
  {
    var g, h' := h.ssg[id], Unlinked(h, id);
    var s := rings[g];
    assert GroupOk(h, g, s);
    CircleDistinct(h.next, h.prev, s);
    Alone(h.next, h.prev, s, id);
    assert |s| == 1 ==> s == [id];
    hide Circle, VersionsRise, DataOk;
    LeaveCircle(h.next, h.prev, s, i);
    LeaveRises(h.ver, s, i);
    LeaveData(h.groups[g], h.ver, s, i);
  }

  lemma LeaveUntouched(h: Heap, rings: Rings, id: nat, g2: nat)
    requires Valid(h, rings) && id in h.ver && g2 in h.groups && g2 != h.ssg[id]
    ensures GroupOk(Unlinked(h, id), g2, rings[g2])
  {
    hide Circle, DataOk, VersionsRise;
    assert GroupOk(h, g2, rings[g2]);
    Neighbours(h, rings, id);
    UntouchedGroup(h, Unlinked(h, id), g2, rings[g2]);
  }

  /** A member that does not write leaves a circle in which others remain. */
  lemma UnlinkOk(h: Heap, rings: Rings, id: nat) returns (rings': Rings)
    requires Valid(h, rings) && id in h.ver && h.prev[id] != id && !IsWriter(h, id)
    ensures Valid(Unlinked(h, id), rings') && Abs(Unlinked(h, id)) == Family(Abs(h).copies - {id}, Abs(h).writers)
  {
    hide GroupOk, Visible;
    var g, h' := h.ssg[id], Unlinked(h, id);
    var i := Position(h, rings, id);
    rings' := rings[g := Left(rings[g], i)];
    LeaveGroup(h, rings, id, i);
    Neighbours(h, rings, id);
    assert h'.prev.Keys == h'.next.Keys == h'.ssg.Keys == h'.ver.Keys;
    forall g2 | g2 in h'.groups && g2 != g
      ensures GroupOk(h', g2, rings'[g2])
    {
      LeaveUntouched(h, rings, id, g2);
    }
    assert Abs(h').copies == Abs(h).copies - {id};
    assert Abs(h').writers == Abs(h).writers;
  }

  lemma LastUntouched(h: Heap, rings: Rings, id: nat, g2: nat)
    requires Valid(h, rings) && id in h.ver && g2 in h.groups && g2 != h.ssg[id]
    ensures GroupOk(LastGone(h, id), g2, rings[g2])
  {
    hide Circle, DataOk, VersionsRise;
    assert GroupOk(h, g2, rings[g2]);
    UntouchedGroup(h, LastGone(h, id), g2, rings[g2]);
  }

  /** The last member takes the group with it. */
  lemma LastOk(h: Heap, rings: Rings, id: nat)
    requires Valid(h, rings) && id in h.ver && h.prev[id] == id
    ensures Valid(LastGone(h, id), rings - {h.ssg[id]})
    ensures Abs(LastGone(h, id)) == Family(Abs(h).copies - {id}, Abs(h).writers - {id})
  {
    hide GroupOk, View;
    OnlyMember(h, rings, id);
    var g, h' := h.ssg[id], LastGone(h, id);
    forall g2 | g2 in h'.groups
      ensures GroupOk(h', g2, rings[g2])
    {
      LastUntouched(h, rings, id, g2);
    }
    forall x | x in h'.ver
      ensures View(h', x) == View(h, x) && IsWriter(h', x) == IsWriter(h, x)
    {
      SameView(h, h', x);
    }
    AbsIs(h', Family(Abs(h).copies - {id}, Abs(h).writers - {id}));
  }

  lemma SameView(h: Heap, h': Heap, x: nat)
    requires x in h.ver && x in h.ssg && h.ssg[x] in h.groups && x in h'.ver && x in h'.ssg && h'.ssg[x] in h'.groups
    requires h'.ver[x] == h.ver[x] && h'.ssg[x] == h.ssg[x] && h'.groups[h'.ssg[x]] == h.groups[h.ssg[x]]
    ensures View(h', x) == View(h, x) && IsWriter(h', x) == IsWriter(h, x)
  {
  }

  lemma AbsIs(h: Heap, f: Family)
    requires Shaped(h) && f.copies.Keys == h.ver.Keys && forall x :: x in h.ver ==> f.copies[x] == View(h, x)
    requires forall x :: x in f.writers <==> x in h.ver && IsWriter(h, x)
    ensures Abs(h) == f
  {
    hide View;
    assert Abs(h).copies == f.copies;
    assert Abs(h).writers == f.writers;
  }

  lemma OnlyMember(h: Heap, rings: Rings, id: nat)
    requires Valid(h, rings) && id in h.ver && h.prev[id] == id
    ensures forall x :: x in h.ver && h.ssg[x] == h.ssg[id] ==> x == id
  {
    var s := rings[h.ssg[id]];
    assert GroupOk(h, h.ssg[id], s);
    Alone(h.next, h.prev, s, id);
  }

  ghost function MinOf(s: set<nat>): (m: nat)
    requires s != {}
    ensures m in s && forall x :: x in s ==> m <= x
  {
    var x :| x in s;
    if s == {x} then x
    else
      var m := MinOf(s - {x});
      assert forall y :: y in s ==> y == x || y in s - {x};
      if x < m then x else m
  }

  /** The lowest version in a group. */
  ghost function Low(h: Heap, g: nat): (low: nat)
    ensures AtLeast(h, g, low)
  {
    var vs := set x | x in h.ver && x in h.ssg && h.ssg[x] == g :: h.ver[x];
    assert forall x :: x in h.ver && x in h.ssg && h.ssg[x] == g ==> h.ver[x] in vs;
    if vs == {} then 0 else MinOf(vs)
  }

  /** Every member of the group is past the removal of the entry. */
  ghost predicate PastAll(h: Heap, g: nat, e: Entry) {
    e.removed.Some? && forall x :: x in h.ver && x in h.ssg && h.ssg[x] == g ==> e.removed.value < h.ver[x]
  }

  /** Collection takes the entries removed before the version of every member, and no others. */
  lemma CollectedExact(h: Heap, g: nat, id: nat, e: Entry)
    requires g in h.groups && id in h.ver && id in h.ssg && h.ssg[id] == g
    ensures e in Collected(h, g, Low(h, g)).groups[g].data <==> e in h.groups[g].data && !PastAll(h, g, e)
  {
    var vs := set x | x in h.ver && x in h.ssg && h.ssg[x] == g :: h.ver[x];
    assert h.ver[id] in vs;
    var x :| x in h.ver && x in h.ssg && h.ssg[x] == g && h.ver[x] == Low(h, g);
    hide Low, Collect;
    CollectMembers(h.groups[g].data, Low(h, g));
  }

  /**
   * What collection leaves although no version from `low` to `high` shows it: entries newer than all of them, since the
   * highest version is never found, and entries removed in the lowest.
   */
  lemma LeftUnseen(e: Entry, low: nat, high: nat)
    requires low <= high && (e.removed.Some? ==> e.created < e.removed.value)
    ensures Garbage(e, low) ==> forall v :: low <= v <= high ==> !ValidAt(e, v)
    ensures !Garbage(e, low) ==>
      ((forall v :: low <= v <= high ==> !ValidAt(e, v)) <==> high < e.created || e.removed == Some(low))
  {
    var v := if low < e.created then e.created else low;
    if !Garbage(e, low) && !(high < e.created || e.removed == Some(low)) {
      assert low <= v <= high && ValidAt(e, v);
    }
  }

  /** `destroy_me`. */
  ghost function Destroyed(h: Heap, id: nat): Heap
    requires id in h.ssg && id in h.prev && id in h.next && h.ssg[id] in h.groups
  {
    if h.prev[id] == id then LastGone(h, id)
    else
      var g := h.ssg[id];
      var h' := Unlinked(Disowned(h, id), id);
      if h.groups[g].writer == Some(id) && AutoGc(h.groups[g]) then Collected(h', g, Low(h', g)) else h'
  }

  /**
   * A member goes, with its copy and its right to write; nobody else notices, whether or not it collects on the way.
   */
  lemma DestroyOk(h: Heap, rings: Rings, id: nat) returns (rings': Rings)
    requires Valid(h, rings) && id in h.ver
    ensures Valid(Destroyed(h, id), rings')
    ensures Abs(Destroyed(h, id)) == Family(Abs(h).copies - {id}, Abs(h).writers - {id})
  {
    hide GroupOk, Abs, LastGone, Unlinked, Collected, AutoGc;
    if h.prev[id] == id {
      LastOk(h, rings, id);
      rings' := rings - {h.ssg[id]};
    } else {
      DisownOk(h, rings, id);
      var d := Disowned(h, id);
      rings' := UnlinkOk(d, rings, id);
      var u := Unlinked(d, id);
      UnlinkedGroups(d, id);
      CollectOk(u, rings', h.ssg[id], Low(u, h.ssg[id]));
    }
  }

  lemma UnlinkedGroups(h: Heap, id: nat)
    requires id in h.prev && id in h.next
    ensures Unlinked(h, id).groups == h.groups
  {
  }

  // ---- New objects

  lemma CreateUntouched(h: Heap, rings: Rings, id: nat, g: nat, g2: nat)
    requires Valid(h, rings) && id !in h.ver && g !in h.groups && g2 in h.groups
    ensures GroupOk(Created(h, id, g), g2, rings[g2])
  {
    hide Circle, DataOk, VersionsRise;
    assert GroupOk(h, g2, rings[g2]);
    UntouchedGroup(h, Created(h, id, g), g2, rings[g2]);
  }

  lemma CreateGroup(h: Heap, id: nat, g: nat)
    requires Shaped(h) && id !in h.ver && g !in h.groups
    ensures GroupOk(Created(h, id, g), g, [id]) && View(Created(h, id, g), id) == []
  {
  }

  lemma CreateValid(h: Heap, rings: Rings, id: nat, g: nat)
    requires Valid(h, rings) && id !in h.ver && g !in h.groups
    ensures Valid(Created(h, id, g), rings[g := [id]])
  {
    hide GroupOk;
    CreateGroup(h, id, g);
    var h', rings' := Created(h, id, g), rings[g := [id]];
    forall g2 | g2 in h'.groups
      ensures GroupOk(h', g2, rings'[g2])
    {
      if g2 != g {
        CreateUntouched(h, rings, id, g, g2);
      }
    }
  }

  lemma CreateOk(h: Heap, rings: Rings, id: nat, g: nat)
    requires Valid(h, rings) && id !in h.ver && g !in h.groups
    ensures Valid(Created(h, id, g), rings[g := [id]])
    ensures Abs(Created(h, id, g)) == Family(Abs(h).copies[id := []], Abs(h).writers + {id})
  {
    hide GroupOk, View, IsWriter;
    CreateValid(h, rings, id, g);
    CreateGroup(h, id, g);
    CreatedWriter(h, rings, id, g);
    var h' := Created(h, id, g);
    forall x | x in h.ver
      ensures View(h', x) == View(h, x) && IsWriter(h', x) == IsWriter(h, x)
    {
      SameView(h, h', x);
    }
    AbsIs(h', Family(Abs(h).copies[id := []], Abs(h).writers + {id}));
  }

  lemma CreatedWriter(h: Heap, rings: Rings, id: nat, g: nat)
    ensures IsWriter(Created(h, id, g), id)
  {
  }

  /** `insert` of a whole range into an empty map: one version for all of it. */
  ghost function Loaded(h: Heap, id: nat, s: Pairs): Heap
    requires id in h.ver && id in h.ssg && h.ssg[id] in h.groups
  {
    var g := h.ssg[id];
    h.(ver := h.ver[id := h.ver[id] + 1],
      groups := h.groups[g := h.groups[g].(data := Filled(s), ins := h.groups[g].ins + |s|)])
  }

  /** Whatever order the range is in, the new map shows its stable sort. */
  lemma LoadOk(h: Heap, rings: Rings, id: nat, s: Pairs)
    requires Valid(h, rings) && id in h.ver && IsWriter(h, id) && h.prev[id] == id && h.ver[id] == 0
    ensures Valid(Loaded(h, id, s), rings) && Abs(Loaded(h, id, s)) == Replaced(Abs(h), id, Arranged(s))
  {
    hide GroupOk, Sorted, UpTo, Visible, Filled, Arranged;
    FilledOk(s);
    AloneInGroup(h, rings, id);
    WriterOp(h, Loaded(h, id, s), rings, id, Arranged(s));
  }

  lemma ViewSorted(h: Heap, rings: Rings, x: nat)
    requires Valid(h, rings) && x in h.ver
    ensures SortedPairs(View(h, x))
  {
    assert GroupOk(h, h.ssg[x], rings[h.ssg[x]]);
    VisibleSorted(h.groups[h.ssg[x]].data, h.ver[x]);
  }
}
