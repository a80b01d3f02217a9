/**
 * Snapshot groups: objects that share one versioned multimap, linked in a circle per group, and the family of
 * independent copies that they must look like.
 */
module SnapshotSpec {
  import opened Options
  import opened SnapshotData
  import opened SnapshotRing

  /** The shared part of a group: its map, its writer if there is one, and the counters that trigger collection. */
  datatype Group = Group(data: seq<Entry>, writer: Option<nat>, ins: nat, era: nat)

  /** All snapshot objects: version, links and group of each; and all groups. */
  datatype Heap = Heap(ver: map<nat, nat>, prev: map<nat, nat>, next: map<nat, nat>, ssg: map<nat, nat>,
      groups: map<nat, Group>)

  /** Members and their groups are in step. */
  ghost predicate Shaped(h: Heap) {
    && h.prev.Keys == h.ver.Keys && h.next.Keys == h.ver.Keys && h.ssg.Keys == h.ver.Keys
    && forall x :: x in h.ver ==> h.ssg[x] in h.groups
  }

  ghost predicate VersionsRise(ver: map<nat, nat>, s: seq<nat>)
    requires forall x :: x in s ==> x in ver
  {
    forall i, j :: 0 <= i < j < |s| ==> ver[s[i]] <= ver[s[j]]
  }

  ghost predicate MembersOf(h: Heap, g: nat, s: seq<nat>) {
    forall x :: x in s <==> x in h.ver && x in h.ssg && h.ssg[x] == g
  }

  /** `s` lists the members of group `g` from the oldest version to the newest, the writer last. */
  ghost predicate GroupOk(h: Heap, g: nat, s: seq<nat>)
    requires g in h.groups
  {
    && MembersOf(h, g, s) && Circle(h.next, h.prev, s) && VersionsRise(h.ver, s)
    && DataOk(h.groups[g], h.ver, s)
  }

  ghost predicate DataOk(grp: Group, ver: map<nat, nat>, s: seq<nat>)
    requires s != [] && forall x :: x in s ==> x in ver
  {
    && Sorted(grp.data)
    && (grp.writer.Some? ==> grp.writer.value == s[|s| - 1] && UpTo(grp.data, ver[grp.writer.value]))
  }

  type Rings = map<nat, seq<nat>>

  ghost predicate Valid(h: Heap, rings: Rings) {
    && Shaped(h) && rings.Keys == h.groups.Keys
    && forall g :: g in h.groups ==> GroupOk(h, g, rings[g])
  }

  predicate IsWriter(h: Heap, x: nat) {
    x in h.ssg && h.ssg[x] in h.groups && h.groups[h.ssg[x]].writer == Some(x)
  }

  function View(h: Heap, x: nat): Pairs
    requires x in h.ver && x in h.ssg && h.ssg[x] in h.groups
  {
    Visible(h.groups[h.ssg[x]].data, h.ver[x])
  }

  // ---- The family of independent copies

  datatype Family = Family(copies: map<nat, Pairs>, writers: set<nat>)

  ghost function Abs(h: Heap): Family
    requires Shaped(h)
  {
    Family(map x | x in h.ver :: View(h, x), set x | x in h.ver && IsWriter(h, x))
  }

  // ---- The operations on the heap

  function Created(h: Heap, id: nat, g: nat): Heap {
    Heap(h.ver[id := 0], h.prev[id := id], h.next[id := id], h.ssg[id := g], h.groups[g := Group([], Some(id), 0, 0)])
  }

  function Inserted(h: Heap, id: nat, k: int, x: int): Heap
    requires id in h.ver && id in h.ssg && h.ssg[id] in h.groups
  {
    var v, g := h.ver[id] + 1, h.ssg[id];
    var grp := h.groups[g];
    h.(ver := h.ver[id := v],
      groups := h.groups[g := grp.(data := Put(grp.data, Entry(k, x, v, None)), ins := grp.ins + 1)])
  }

  /** How many entries an erase marks. */
  function Marks(d: seq<Entry>, w: Which, orig: nat): nat {
    if d == [] then 0 else (if Hits(w, Kv(d[0])) && ValidAt(d[0], orig) then 1 else 0) + Marks(d[1..], w, orig)
  }

  function Erased(h: Heap, id: nat, w: Which): Heap
    requires id in h.ver && id in h.prev && id in h.ssg && h.ssg[id] in h.groups
  {
    var v, g := h.ver[id], h.ssg[id];
    var grp := h.groups[g];
    var grp' :=
      if h.prev[id] != id
      then grp.(data := Mark(grp.data, w, v, v + 1), era := grp.era + Marks(grp.data, w, v))
      else grp.(data := Drop(grp.data, w));
    h.(ver := h.ver[id := v + 1], groups := h.groups[g := grp'])
  }

  /** `make_me_snapshot_of`: `id` joins the circle to the left of `src`. */
  function Snapshotted(h: Heap, src: nat, id: nat): Heap
    requires src in h.ver && src in h.prev && src in h.ssg && h.ssg[src] in h.groups
  {
    var g, p := h.ssg[src], h.prev[src];
    var grp := h.groups[g];
    Heap(h.ver[id := h.ver[src]], h.prev[id := p][src := id], h.next[id := src][p := id], h.ssg[id := g],
      if grp.writer == Some(src) then h.groups[g := grp.(ins := 0, era := 0)] else h.groups)
  }

  /** `gc_run` with the lowest version found. */
  function Collected(h: Heap, g: nat, low: nat): Heap
    requires g in h.groups
  {
    var grp := h.groups[g];
    h.(groups := h.groups[g := grp.(data := Collect(grp.data, low), ins := 0, era := 0)])
  }

  /** Leaving the circle. */
  function Unlinked(h: Heap, id: nat): Heap
    requires id in h.prev && id in h.next
  {
    var p, n := h.prev[id], h.next[id];
    Heap(h.ver - {id}, h.prev[n := p] - {id}, h.next[p := n] - {id}, h.ssg - {id}, h.groups)
  }

  /** Whether a dying writer collects: enough has changed, and at least half of the map. */
  predicate AutoGc(grp: Group) {
    grp.ins + grp.era >= 16 && grp.ins + grp.era >= |grp.data| / 2
  }

  function Disowned(h: Heap, id: nat): Heap
    requires id in h.ssg && h.ssg[id] in h.groups
  {
    var g := h.ssg[id];
    if h.groups[g].writer == Some(id) then h.(groups := h.groups[g := h.groups[g].(writer := None)]) else h
  }

  function LastGone(h: Heap, id: nat): Heap
    requires id in h.ssg
  {
    Heap(h.ver - {id}, h.prev - {id}, h.next - {id}, h.ssg - {id}, h.groups - {h.ssg[id]})
  }
}
