/** The reader-writer lock of a row. */
module Locking {
  import opened Options

  type Tid = nat

  /** Who may write and who may read. */
  datatype Lock = Lock(w: Option<Tid>, r: set<Tid>)

  predicate Exclusive(l: Lock) {
    l.w.Some? ==> l.r == {}
  }

  predicate HasWrite(l: Lock, o: Tid) {
    l.w == Some(o)
  }

  /** The write owner may read as well. */
  predicate HasRead(l: Lock, o: Tid) {
    l.w == Some(o) || o in l.r
  }

  /** Nobody else writes. */
  predicate CanRead(l: Lock, o: Tid) {
    l.w.None? || l.w == Some(o)
  }

  /** Nobody else writes or reads. */
  predicate CanWrite(l: Lock, o: Tid) {
    l.w == Some(o) || (l.w.None? && l.r <= {o})
  }

  function ReadLocked(l: Lock, o: Tid): Lock {
    if l.w.Some? then l else Lock(None, l.r + {o})
  }

  function WriteLocked(l: Lock, o: Tid): Lock {
    Lock(Some(o), {})
  }

  function Unlocked(l: Lock, o: Tid): Lock {
    Lock(if l.w == Some(o) then None else l.w, l.r - {o})
  }

  /**
   * A write lock is there for the taking exactly when nobody else holds the row, a read lock when nobody else writes.
   */
  lemma GrantExact(l: Lock, o: Tid)
    requires Exclusive(l)
    ensures CanWrite(l, o) <==> forall p :: p != o ==> !HasRead(l, p)
    ensures CanRead(l, o) <==> forall p :: p != o ==> !HasWrite(l, p)
    ensures CanWrite(l, o) ==> HasWrite(WriteLocked(l, o), o)
    ensures CanRead(l, o) ==> HasRead(ReadLocked(l, o), o) && (HasWrite(ReadLocked(l, o), o) <==> HasWrite(l, o))
  {
    if CanWrite(l, o) {
      forall p | p != o
        ensures !HasRead(l, p)
      {
        assert l.w.None? ==> p !in {o};
      }
    }
    if l.w.Some? && l.w.value != o {
      assert HasWrite(l, l.w.value) && HasRead(l, l.w.value);
    }
    if l.w.None? && !(l.r <= {o}) {
      var p :| p in l.r && p != o;
      assert HasRead(l, p);
    }
  }

  class RWLock {
    var writeLocked: bool
    var writer: Tid
    var readers: set<Tid>

    constructor ()
      ensures Valid() && View() == Lock(None, {})
    {
      writeLocked, writer, readers := false, 0, {};
    }

    ghost predicate Valid()
      reads this
    {
      writeLocked ==> readers == {}
    }

    ghost function View(): Lock
      reads this
    {
      Lock(if writeLocked then Some(writer) else None, readers)
    }

    /** Granted exactly when nobody else holds the lock; a sole reader is upgraded. */
    method WlockBy(o: Tid) returns (ok: bool)
      requires Valid()
      modifies this
      ensures Valid() && ok == CanWrite(old(View()), o)
      ensures View() == if ok then WriteLocked(old(View()), o) else old(View())
    {
      if writeLocked {
        return o == writer;
      } else if readers == {} {
        writeLocked := true;
        writer := o;
        return true;
      } else {
        if o in readers && |readers| == 1 {
          OnlyElement(readers, o);
          readers := readers - {o};
          writeLocked := true;
          writer := o;
          return true;
        } else {
          SomeoneElse(readers, o);
          return false;
        }
      }
    }

    /** Granted exactly when nobody else writes; a writer does not become a reader too. */
    method RlockBy(o: Tid) returns (ok: bool)
      requires Valid()
      modifies this
      ensures Valid() && ok == CanRead(old(View()), o)
      ensures View() == if ok then ReadLocked(old(View()), o) else old(View())
    {
      if writeLocked {
        return o == writer;
      } else {
        readers := readers + {o};
        return true;
      }
    }

    /** Gives up whatever `o` holds, and nothing else. */
    method UnlockBy(o: Tid) returns (ret: bool)
      requires Valid()
      modifies this
      ensures Valid() && ret == HasRead(old(View()), o)
      ensures View() == Unlocked(old(View()), o)
    {
      ret := false;
      if writeLocked && o == writer {
        writeLocked := false;
        ret := true;
      }
      if o in readers {
        readers := readers - {o};
        ret := true;
      }
    }
  }

  lemma OnlyElement(s: set<Tid>, o: Tid)
    requires o in s && |s| == 1
    ensures s == {o}
  {
    assert |s - {o}| == 0;
  }

  lemma SomeoneElse(s: set<Tid>, o: Tid)
    requires s != {} && !(o in s && |s| == 1)
    ensures !(s <= {o})
  {
    assert s <= {o} ==> s == {o};
  }

  /**
   * Locks exclude: if one owner may write, no other owner may read or write; and no grant or release takes away or adds
   * to what another owner holds.
   */
  lemma OthersKept(l: Lock, o: Tid, p: Tid)
    requires Exclusive(l) && o != p
    ensures HasWrite(l, o) ==> !HasRead(l, p)
    ensures CanRead(l, o) ==> Exclusive(ReadLocked(l, o)) && HasRead(ReadLocked(l, o), o)
    ensures CanRead(l, o) ==>
      (HasRead(ReadLocked(l, o), p) <==> HasRead(l, p)) && (HasWrite(ReadLocked(l, o), p) <==> HasWrite(l, p))
    ensures CanWrite(l, o) ==> Exclusive(WriteLocked(l, o)) && !HasRead(l, p) && !HasRead(WriteLocked(l, o), p)
    ensures Exclusive(Unlocked(l, o)) && !HasRead(Unlocked(l, o), o)
    ensures (HasRead(Unlocked(l, o), p) <==> HasRead(l, p)) && (HasWrite(Unlocked(l, o), p) <==> HasWrite(l, p))
  {
  }
}
