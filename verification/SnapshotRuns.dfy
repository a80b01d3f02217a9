/** Copying and assigning members, and whole runs of operations. */
module SnapshotRuns {
  import opened SnapshotData
  import opened SnapshotSpec
  import opened SnapshotProof

  /** The circles are in order. */
  ghost predicate Ok(h: Heap) {
    exists rings :: Valid(h, rings)
  }

  lemma Basics(h: Heap)
    requires Ok(h)
    ensures Shaped(h)
  {
  }

  /** The family with a new read-only member. */
  ghost function FShare(f: Family, src: nat, id: nat): Family
    requires src in f.copies
  {
    f.(copies := f.copies[id := f.copies[src]])
  }

  ghost function FGone(f: Family, id: nat): Family {
    Family(f.copies - {id}, f.writers - {id})
  }

  ghost function FNew(f: Family, id: nat, s: Pairs): Family {
    Family(f.copies[id := s], f.writers + {id})
  }

  /** A copy of a reader is a reader; a copy of a writer is a writer of its own. */
  ghost function FCopy(f: Family, src: nat, id: nat): Family
    requires src in f.copies
  {
    if src in f.writers then FNew(f, id, f.copies[src]) else FShare(f, src, id)
  }

  ghost function FAssign(f: Family, dst: nat, src: nat): Family
    requires src in f.copies
  {
    if dst == src then f else FCopy(FGone(f, dst), src, dst)
  }

  lemma Share(h: Heap, src: nat, id: nat)
    requires Ok(h) && src in h.ver && id !in h.ver
    ensures Shaped(h) && Ok(Snapshotted(h, src, id)) && Shaped(Snapshotted(h, src, id))
    ensures Abs(Snapshotted(h, src, id)) == FShare(Abs(h), src, id)
  {
    hide GroupOk, View, Snapshotted;
    var rings :| Valid(h, rings);
    var rings' := SnapshotOk(h, rings, src, id);
  }

  lemma Gone(h: Heap, id: nat)
    requires Ok(h) && id in h.ver
    ensures Shaped(h) && Ok(Destroyed(h, id)) && Shaped(Destroyed(h, id)) && Abs(Destroyed(h, id)) == FGone(Abs(h), id)
  {
    hide GroupOk, View, Destroyed;
    var rings :| Valid(h, rings);
    var rings' := DestroyOk(h, rings, id);
  }

  lemma New(h: Heap, id: nat, g: nat)
    requires Ok(h) && id !in h.ver && g !in h.groups
    ensures Shaped(h) && Ok(Created(h, id, g)) && Shaped(Created(h, id, g))
    ensures Abs(Created(h, id, g)) == FNew(Abs(h), id, [])
  {
    hide GroupOk, View, Created;
    var rings :| Valid(h, rings);
    CreateOk(h, rings, id, g);
  }

  /** A new writer loaded with some pairs. */
  ghost function LoadedNew(h: Heap, id: nat, g: nat, s: Pairs): Heap {
    Loaded(Created(h, id, g), id, s)
  }

  lemma Load(h: Heap, id: nat, g: nat, s: Pairs)
    requires Ok(h) && id !in h.ver && g !in h.groups && SortedPairs(s)
    ensures Shaped(h) && Ok(LoadedNew(h, id, g, s)) && Shaped(LoadedNew(h, id, g, s))
    ensures Abs(LoadedNew(h, id, g, s)) == FNew(Abs(h), id, s)
    ensures LoadedNew(h, id, g, s).ver.Keys == h.ver.Keys + {id}
  {
    hide GroupOk, Abs, SortedPairs;
    var rings :| Valid(h, rings);
    CreateOk(h, rings, id, g);
    CreatedWriter(h, rings, id, g);
    var f, c := Abs(h), Created(h, id, g);
    LoadOk(c, rings[g := [id]], id, s);
    ArrangedSorted(s);
    NewTwice(f, id, s);
  }

  lemma NewTwice(f: Family, id: nat, s: Pairs)
    ensures Replaced(FNew(f, id, []), id, s) == FNew(f, id, s)
  {
  }

  /** The copy constructor; `tmp` is the snapshot through which a writer's content is read. */
  ghost function Copied(h: Heap, src: nat, id: nat, g: nat, tmp: nat): Heap
    requires Ok(h) && src in h.ver && id !in h.ver && tmp !in h.ver && tmp != id && g !in h.groups
  {
    Basics(h);
    if !IsWriter(h, src) then Snapshotted(h, src, id)
    else
      Share(h, src, tmp);
      var h1 := Snapshotted(h, src, tmp);
      Sharing(h, src, tmp);
      Load(h1, id, g, View(h1, tmp));
      Destroyed(LoadedNew(h1, id, g, View(h1, tmp)), tmp)
  }

  lemma Sharing(h: Heap, src: nat, tmp: nat)
    requires Ok(h) && src in h.ver && tmp !in h.ver
    ensures var h1 := Snapshotted(h, src, tmp);
      tmp in h1.ver && Shaped(h1) && SortedPairs(View(h1, tmp)) && h1.groups.Keys == h.groups.Keys
        && h1.ver.Keys == h.ver.Keys + {tmp}
  {
    hide GroupOk, View, SortedPairs, Abs;
    Basics(h);
    Share(h, src, tmp);
    var h1 := Snapshotted(h, src, tmp);
    var rings :| Valid(h1, rings);
    ViewSorted(h1, rings, tmp);
  }

  lemma Copying(h: Heap, src: nat, id: nat, g: nat, tmp: nat)
    requires Ok(h) && src in h.ver && id !in h.ver && tmp !in h.ver && tmp != id && g !in h.groups
    ensures Shaped(h) && Ok(Copied(h, src, id, g, tmp)) && Shaped(Copied(h, src, id, g, tmp))
    ensures Abs(Copied(h, src, id, g, tmp)) == FCopy(Abs(h), src, id)
  {
    hide GroupOk, View, SortedPairs, Snapshotted, LoadedNew, Destroyed, Ok;
    Basics(h);
    if IsWriter(h, src) {
      Share(h, src, tmp);
      Sharing(h, src, tmp);
      var h1 := Snapshotted(h, src, tmp);
      Load(h1, id, g, View(h1, tmp));
      var h2 := LoadedNew(h1, id, g, View(h1, tmp));
      Gone(h2, tmp);
      ViewIs(h1, tmp);
      hide Abs;
      ThereAndBack(Abs(h), src, id, tmp);
    } else {
      Share(h, src, id);
    }
  }

  lemma ViewIs(h: Heap, x: nat)
    requires Shaped(h) && x in h.ver
    ensures x in Abs(h).copies && Abs(h).copies[x] == View(h, x)
  {
  }

  /** Reading a writer through a passing snapshot. */
  lemma ThereAndBack(f: Family, src: nat, id: nat, tmp: nat)
    requires src in f.copies && tmp !in f.copies && tmp !in f.writers && id != tmp && src in f.writers
    ensures FGone(FNew(FShare(f, src, tmp), id, f.copies[src]), tmp) == FCopy(f, src, id)
  {
    assert f.copies[tmp := f.copies[src]][id := f.copies[src]] - {tmp} == f.copies[id := f.copies[src]];
  }

  /** `operator=`. */
  ghost function Assigned(h: Heap, dst: nat, src: nat, g: nat, tmp: nat): Heap
    requires Ok(h) && dst in h.ver && src in h.ver && tmp !in h.ver && g !in h.groups
  {
    Basics(h);
    if dst == src then h
    else
      Gone(h, dst);
      Going(h, dst);
      Copied(Destroyed(h, dst), src, dst, g, tmp)
  }

  lemma Going(h: Heap, id: nat)
    requires Ok(h) && id in h.ver
    ensures Shaped(h) && Destroyed(h, id).ver.Keys == h.ver.Keys - {id} && Destroyed(h, id).groups.Keys <= h.groups.Keys
  {
    hide GroupOk;
    Basics(h);
  }

  lemma Assigning(h: Heap, dst: nat, src: nat, g: nat, tmp: nat)
    requires Ok(h) && dst in h.ver && src in h.ver && tmp !in h.ver && g !in h.groups
    ensures Shaped(h) && Ok(Assigned(h, dst, src, g, tmp)) && Shaped(Assigned(h, dst, src, g, tmp))
    ensures Abs(Assigned(h, dst, src, g, tmp)) == FAssign(Abs(h), dst, src)
  {
    hide GroupOk, Destroyed, Copied, Ok, View;
    Basics(h);
    if dst != src {
      Gone(h, dst);
      Going(h, dst);
      Copying(Destroyed(h, dst), src, dst, g, tmp);
    }
  }

  // ---- Whole runs

  datatype Op =
    | Create(id: nat, g: nat)
    | Insert(id: nat, k: int, x: int)
    | Erase(id: nat, w: Which)
    | Snapshot(src: nat, id: nat)
    | Copy(src: nat, id: nat, g: nat, tmp: nat)
    | Assign(dst: nat, src: nat, g: nat, tmp: nat)
    | Destroy(id: nat)
    | GcRun(id: nat)

  /** New objects and groups are new; everything else exists; only a writer is asked to write. */
  predicate Possible(h: Heap, op: Op) {
    match op
    case Create(id, g) => id !in h.ver && g !in h.groups
    case Insert(id, _, _) => id in h.ver && IsWriter(h, id)
    case Erase(id, _) => id in h.ver && IsWriter(h, id)
    case Snapshot(src, id) => src in h.ver && id !in h.ver
    case Copy(src, id, g, tmp) => src in h.ver && id !in h.ver && tmp !in h.ver && tmp != id && g !in h.groups
    case Assign(dst, src, g, tmp) => dst in h.ver && src in h.ver && tmp !in h.ver && g !in h.groups
    case Destroy(id) => id in h.ver
    case GcRun(id) => id in h.ver
  }

  ghost function After(h: Heap, op: Op): Heap
    requires Ok(h) && Possible(h, op)
  {
    hide GroupOk;
    Basics(h);
    match op
    case Create(id, g) => Created(h, id, g)
    case Insert(id, k, x) => Inserted(h, id, k, x)
    case Erase(id, w) => Erased(h, id, w)
    case Snapshot(src, id) => Snapshotted(h, src, id)
    case Copy(src, id, g, tmp) => Copied(h, src, id, g, tmp)
    case Assign(dst, src, g, tmp) => Assigned(h, dst, src, g, tmp)
    case Destroy(id) => Destroyed(h, id)
    case GcRun(id) => Collected(h, h.ssg[id], Low(h, h.ssg[id]))
  }

  /** The same operation on independent copies. */
  ghost function FAfter(f: Family, op: Op): Family {
    match op
    case Create(id, _) => FNew(f, id, [])
    case Insert(id, k, x) => if id in f.copies then Replaced(f, id, PutPair(f.copies[id], (k, x))) else f
    case Erase(id, w) => if id in f.copies then Replaced(f, id, Without(f.copies[id], w)) else f
    case Snapshot(src, id) => if src in f.copies then FShare(f, src, id) else f
    case Copy(src, id, _, _) => if src in f.copies then FCopy(f, src, id) else f
    case Assign(dst, src, _, _) => if src in f.copies then FAssign(f, dst, src) else f
    case Destroy(id) => FGone(f, id)
    case GcRun(_) => f
  }

  lemma WriteStep(h: Heap, op: Op)
    requires Ok(h) && Possible(h, op) && (op.Insert? || op.Erase? || op.GcRun?)
    ensures Shaped(h) && Ok(After(h, op)) && Shaped(After(h, op)) && Abs(After(h, op)) == FAfter(Abs(h), op)
  {
    hide GroupOk, View, PutPair, Without, Inserted, Erased, Collected;
    Basics(h);
    ViewIs(h, op.id);
    var rings :| Valid(h, rings);
    match op
    case Insert(id, k, x) => InsertOk(h, rings, id, k, x);
    case Erase(id, w) => EraseOk(h, rings, id, w);
    case GcRun(id) => CollectOk(h, rings, h.ssg[id], Low(h, h.ssg[id]));
  }

  /** Each operation does to the family of copies what it does to independent copies. */
  lemma StepRefines(h: Heap, op: Op)
    requires Ok(h) && Possible(h, op)
    ensures Shaped(h) && Ok(After(h, op)) && Shaped(After(h, op)) && Abs(After(h, op)) == FAfter(Abs(h), op)
  {
    hide Ok, View, Copied, Assigned, Destroyed, Snapshotted, Created;
    Basics(h);
    match op
    case Create(id, g) => New(h, id, g);
    case Snapshot(src, id) => Share(h, src, id);
    case Copy(src, id, g, tmp) => Copying(h, src, id, g, tmp);
    case Assign(dst, src, g, tmp) => Assigning(h, dst, src, g, tmp);
    case Destroy(id) => Gone(h, id);
    case _ => WriteStep(h, op);
  }

  const EMPTY := Heap(map[], map[], map[], map[], map[])

  /** Each operation is possible where it is carried out. */
  ghost predicate Legal(ops: seq<Op>) {
    ops == [] || (Legal(ops[..|ops| - 1]) && Possible(Run(ops[..|ops| - 1]), ops[|ops| - 1]))
  }

  /** The heap after a legal sequence of operations, starting from nothing. */
  ghost function Run(ops: seq<Op>): Heap {
    if ops == [] then EMPTY
    else
      var h := Run(ops[..|ops| - 1]);
      if Ok(h) && Possible(h, ops[|ops| - 1]) then After(h, ops[|ops| - 1]) else h
  }

  ghost function FRun(ops: seq<Op>): Family {
    if ops == [] then Family(map[], {}) else FAfter(FRun(ops[..|ops| - 1]), ops[|ops| - 1])
  }

  /**
   * For every sequence of operations, every live member of every group shows exactly what its own private copy would
   * hold, in the same order, and the circles stay in order.
   */
  lemma {:induction false} SharedLooksPrivate(ops: seq<Op>)
    requires Legal(ops)
    ensures Ok(Run(ops)) && Shaped(Run(ops)) && Abs(Run(ops)) == FRun(ops)
  {
    hide Shaped, Abs, After, FAfter, Possible;
    if ops == [] {
      EmptyOk();
    } else {
      SharedLooksPrivate(ops[..|ops| - 1]);
      StepRefines(Run(ops[..|ops| - 1]), ops[|ops| - 1]);
    }
  }

  lemma EmptyOk()
    ensures Ok(EMPTY) && Shaped(EMPTY) && Abs(EMPTY) == Family(map[], {})
  {
    assert Valid(EMPTY, map[]);
  }
}
