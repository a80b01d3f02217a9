/**
 * A table row's storage and the operations on it (rococo-dst/memdb/row.cc,
 * rococo-dst/memdb/row.h) and the schema that lays it out
 * (rococo-dst/memdb/schema.cc, rococo-dst/memdb/schema.h).
 */
module RowStore {
  import opened Options
  import opened RowLayout

  class Schema {
    var names: map<string, nat>
    var layout: Layout
    var keys: seq<nat>
    var frozen: bool

    ghost predicate Valid()
      reads this
    {
      WellPlaced(layout) && Named(names, layout.cols)
    }

    constructor ()
      ensures Valid() && names == map[] && layout == Layout([], 0, 0, 0, 0) && keys == [] && !frozen
    {
      hide WellPlaced, Named;
      NamedNone();
      names, layout, keys, frozen := map[], Layout([], 0, 0, 0, 0), [], false;
    }

    /** Shared by visible and hidden columns: a taken name changes nothing. */
    method DoAddColumn(name: string, kind: Kind, key: bool) returns (id: int)
      requires Valid()
      modifies this
      ensures frozen == old(frozen)
      ensures name in old(names) ==>
        id == -1 && layout == old(layout) && keys == old(keys) && names == old(names)
      ensures name !in old(names) ==>
        && id == |old(layout.cols)| && layout == Added(old(layout), name, kind, key)
        && keys == (if key then old(keys) + [id] else old(keys))
        && names == old(names)[name := id]
      ensures Placed(layout.cols) && layout.varCols == VarCount(layout.cols)
      ensures layout.fixedSize == FixedEnd(layout.cols)
      ensures Named(names, layout.cols)
    {
      hide FixedEnd, VarCount, Placed, Named;
      NamedSize(names, layout.cols);
      var here := |names|;
      if name in names {
        return -1;
      }
      AddedPlaced(layout, name, kind, key);
      var cols, varCols, fixedSize := layout.cols, layout.varCols, layout.fixedSize;
      var place := 0;
      if key {
        keys := keys + [here];
      }
      if kind.Str? {
        place := varCols;
        varCols := varCols + 1;
      } else {
        place := fixedSize;
        match kind {
          case I32 => fixedSize := fixedSize + 4;
          case I64 => fixedSize := fixedSize + 8;
          case Double => fixedSize := fixedSize + 8;
        }
      }
      NamedAdd(names, cols, Column(name, kind, key, place));
      names := names[name := here];
      layout := layout.(cols := cols + [Column(name, kind, key, place)], varCols := varCols, fixedSize := fixedSize);
      return here;
    }

    method AddColumn(name: string, kind: Kind, key: bool) returns (id: int)
      requires Valid() && !frozen && layout.hiddenFixed == 0 && layout.hiddenVar == 0
      modifies this
      ensures Valid() && frozen == old(frozen) && names.Keys == old(names.Keys) + {name}
      ensures name in old(names) ==> id == -1 && layout == old(layout) && keys == old(keys)
      ensures name !in old(names) ==>
        && id == Visible(old(layout)) && Visible(layout) == id + 1
        && layout == Added(old(layout), name, kind, key)
        && keys == (if key then old(keys) + [id] else old(keys))
    {
      hide FixedEnd, VarCount, Placed, Named;
      id := DoAddColumn(name, kind, key);
      assert layout.cols[..|layout.cols|] == layout.cols;
    }

    /**
     * The hidden counters move even when the name was taken, and then a
     * visible column drops out of sight.
     */
    method AddHiddenColumn(name: string, kind: Kind) returns (id: int)
      requires Valid() && !frozen
      modifies this
      ensures frozen == old(frozen) && keys == old(keys) && names.Keys == old(names.Keys) + {name}
      ensures id == if name in old(names) then -1 else |old(layout.cols)|
      ensures layout == Hidden(if name in old(names) then old(layout) else Added(old(layout), name, kind, false), kind)
      ensures name !in old(names) ==> Valid()
      ensures Visible(layout) == Visible(old(layout)) <==> name !in old(names)
    {
      hide FixedEnd, VarCount, Placed, Named;
      ghost var before := layout;
      id := DoAddColumn(name, kind, false);
      if kind.Str? {
        layout := layout.(hiddenVar := layout.hiddenVar + 1);
      } else {
        layout := layout.(hiddenFixed := layout.hiddenFixed + 1);
      }
      if id != -1 {
        assert layout.cols[..Visible(layout)] == before.cols[..Visible(before)];
        assert layout.cols[..id] == before.cols;
      }
    }
  }

  method Memcpy(dst: array<Byte>, at: nat, src: seq<Byte>)
    requires at + |src| <= dst.Length
    modifies dst
    ensures dst[..] == Overwrite(old(dst[..]), at, src)
  {
    forall k | 0 <= k < |src| {
      dst[at + k] := src[k];
    }
  }

  /**
   * The strings among the first n values, copied back to back into a new
   * buffer, with an index table of `slots` entries.
   */
  method PackStrings(l: Layout, vals: seq<Value>, n: nat, slots: nat)
    returns (part: array<Byte>, idx: array<nat>, used: nat)
    requires Placed(l.cols) && n <= |l.cols| && n <= |vals| && VarCount(l.cols[..n]) <= slots
    requires forall i :: 0 <= i < n ==> vals[i].kind == l.cols[i].kind
    ensures fresh(part) && fresh(idx) && idx.Length == slots
    ensures used == VarCount(l.cols[..n])
    ensures VarSoFar(l, vals, n, part[..], idx[..used])
  {
    hide VarCount, FixedEnd, VarSoFar, Placed, Overwrite, WellPlaced;
    var size := 0;
    for i := 0 to n
      invariant size == VarSize(vals, i)
    {
      if vals[i].kind.Str? {
        size := size + |vals[i].bytes|;
      }
    }
    part := new Byte[size];
    idx := new nat[slots];
    used := 0;
    var pos := 0;
    NoneYet(l, vals, part[..]);
    assert idx[..0] == [];
    for i := 0 to n
      invariant pos == VarSize(vals, i)
      invariant used == VarCount(l.cols[..i]) <= slots
      invariant pos == Start(idx[..used], used)
      invariant VarSoFar(l, vals, i, part[..], idx[..used])
    {
      Next(l.cols, i);
      Grows(l.cols, i + 1, n);
      VarSizeGrows(vals, i + 1, n);
      if l.cols[i].kind.Str? {
        VarStep(l, vals, i, part[..], idx[..used]);
        ghost var ends := idx[..used];
        Memcpy(part, pos, vals[i].bytes);
        pos := pos + |vals[i].bytes|;
        idx[used] := pos;
        used := used + 1;
        assert idx[..used] == ends + [pos];
      } else {
        VarSkip(l, vals, i, part[..], idx[..used]);
      }
    }
  }

  method SplitStrings(data: array<Byte>, ends: array<nat>) returns (strs: array<seq<Byte>>)
    requires Ascends(ends[..], data.Length) && ends.Length > 0
    ensures fresh(strs) && strs[..] == Segments(data[..], ends[..])
  {
    strs := new seq<Byte>[ends.Length];
    strs[0] := data[..ends[0]];
    for i := 1 to ends.Length
      invariant forall j :: 0 <= j < i ==> strs[j] == Segment(data[..], ends[..], j)
    {
      strs[i] := data[ends[i - 1]..ends[i]];
    }
  }

  class Row {
    var layout: Layout
    var fixedPart: array<Byte>
    var sparse: bool
    var varPart: array<Byte>
    var varIdx: array<nat>
    var sparseVar: array<seq<Byte>>
    var readonly: bool

    constructor ()
      ensures !readonly && !sparse
      ensures fresh(fixedPart) && fresh(varPart) && fresh(varIdx) && fresh(sparseVar)
    {
      layout, sparse, readonly := Layout([], 0, 0, 0, 0), false, false;
      fixedPart, varPart, varIdx, sparseVar := new Byte[0], new Byte[0], new nat[0], new seq<Byte>[0];
    }

    /** The first n columns can be read. */
    ghost predicate Holds(n: nat)
      reads this, varIdx
    {
      && WellPlaced(layout) && n <= |layout.cols|
      && fixedPart.Length == layout.fixedSize && fixedPart != varPart
      && VarCount(layout.cols[..n]) <= (if sparse then sparseVar.Length else varIdx.Length)
      && (!sparse ==> Ascends(varIdx[..], varPart.Length))
    }

    ghost predicate Valid()
      reads this, varIdx
    {
      && Holds(|layout.cols|)
      && (layout.varCols > 0 ==> layout.varCols == if sparse then sparseVar.Length else varIdx.Length)
    }

    ghost function Strings(): seq<seq<Byte>>
      reads this, varPart, varIdx, sparseVar
      requires !sparse ==> Ascends(varIdx[..], varPart.Length)
    {
      if sparse then sparseVar[..] else Segments(varPart[..], varIdx[..])
    }

    /** What the first n columns read as. */
    ghost function Columns(n: nat): (vs: seq<Value>)
      reads this, fixedPart, varPart, varIdx, sparseVar
      requires Holds(n)
      ensures |vs| == n
    {
      Decode(layout, fixedPart[..], Strings(), n)
    }

    ghost function All(): (vs: seq<Value>)
      reads this, fixedPart, varPart, varIdx, sparseVar
      requires Valid()
      ensures |vs| == |layout.cols|
    {
      Columns(|layout.cols|)
    }

    /** What an update leaves alone; only the string objects may be new. */
    twostate predicate Kept()
      reads this
    {
      && layout == old(layout) && readonly == old(readonly)
      && fixedPart == old(fixedPart) && varPart == old(varPart) && varIdx == old(varIdx)
      && (sparseVar == old(sparseVar) || fresh(sparseVar))
    }

    method GetBlob(c: nat) returns (b: seq<Byte>)
      requires Valid() && c < |layout.cols|
      ensures b == All()[c].bytes
      ensures layout.cols[c].kind.Str? ==> layout.cols[c].place < |Strings()| && b == Strings()[layout.cols[c].place]
    {
      hide VarCount, FixedEnd, Placed, Overwrite;
      Inside(layout.cols, c, |layout.cols|);
      var col := layout.cols[c];
      if col.kind.Str? {
        if !sparse {
          var start := 0;
          var stop := varIdx[col.place];
          if col.place != 0 {
            start := varIdx[col.place - 1];
          }
          b := varPart[start..stop];
          assert b == Segments(varPart[..], varIdx[..])[col.place];
        } else {
          b := sparseVar[col.place];
        }
      } else {
        b := fixedPart[col.place..col.place + Width(col.kind)];
      }
    }

    method GetColumn(c: nat) returns (v: Value)
      requires Valid() && c < |layout.cols|
      ensures v == All()[c]
    {
      var b := GetBlob(c);
      v := Value(layout.cols[c].kind, b);
    }

    /** From one buffer of strings to one string object a slot. */
    method MakeSparse()
      requires Valid()
      modifies this
      ensures Valid() && sparse && All() == old(All())
      ensures layout == old(layout) && readonly == old(readonly)
      ensures fixedPart == old(fixedPart) && varPart == old(varPart) && varIdx == old(varIdx)
      ensures sparseVar == old(sparseVar) || fresh(sparseVar)
      ensures layout.varCols > 0 ==> Strings() == old(Strings())
    {
      hide VarCount, FixedEnd, Placed, Overwrite, Decode, Segments, Ascends;
      if sparse {
        return;
      }
      assert layout.cols[..|layout.cols|] == layout.cols;
      ghost var strings := Strings();
      if layout.varCols == 0 {
        sparse := true;
        NoStrings(layout, fixedPart[..], strings, Strings());
      } else {
        var strs := SplitStrings(varPart, varIdx);
        sparse := true;
        sparseVar := strs;
      }
    }

    method UpdateFixed(c: nat, v: seq<Byte>)
      requires Valid() && !readonly
      requires c < |layout.cols| && !layout.cols[c].kind.Str? && |v| == Width(layout.cols[c].kind)
      modifies fixedPart
      ensures Valid() && All() == old(All())[c := Value(layout.cols[c].kind, v)]
    {
      hide VarCount, FixedEnd, Placed, Overwrite;
      ghost var strings := Strings();
      ghost var fixed := fixedPart[..];
      FixedWrite(layout, fixed, strings, c, v);
      var at := layout.cols[c].place;
      if fixedPart[at..at + |v|] == v {
        SameBytes(fixed, at, v);
        return;
      }
      Memcpy(fixedPart, at, v);
    }

    method UpdateString(c: nat, v: seq<Byte>)
      requires Valid() && !readonly
      requires c < |layout.cols| && layout.cols[c].kind.Str?
      modifies this, varPart, sparseVar
      ensures Valid() && Kept()
      ensures All() == old(All())[c := Value(Str, v)]
    {
      hide VarCount, FixedEnd, Placed, Overwrite, Decode, Segments, Ascends;
      Inside(layout.cols, c, |layout.cols|);
      var slot := layout.cols[c].place;
      StringWrite(layout, fixedPart[..], Strings(), c, v);
      var b := GetBlob(c);
      if b == v {
        assert Strings()[slot := v] == Strings();
        return;
      }
      if !sparse && |b| == |v| {
        SegmentAt(varPart[..], varIdx[..], slot);
        SameSizeInPlace(varPart[..], varIdx[..], slot, v);
        Memcpy(varPart, Start(varIdx[..], slot), v);
      } else {
        MakeSparse();
        sparseVar[slot] := v;
      }
    }

    method Update(c: nat, v: Value)
      requires Valid() && !readonly
      requires c < |layout.cols| && v.kind == layout.cols[c].kind && Sized(v)
      modifies this, fixedPart, varPart, sparseVar
      ensures Valid() && Kept()
      ensures All() == old(All())[c := v]
    {
      if v.kind.Str? {
        UpdateString(c, v.bytes);
      } else {
        UpdateFixed(c, v.bytes);
      }
    }
  }

  /** A write of what is there already changes nothing. */
  lemma SameBytes(part: seq<Byte>, at: nat, bytes: seq<Byte>)
    requires at + |bytes| <= |part| && part[at..at + |bytes|] == bytes
    ensures Overwrite(part, at, bytes) == part
  {
  }

  lemma NoStrings(l: Layout, fixed: seq<Byte>, ss: seq<seq<Byte>>, ts: seq<seq<Byte>>)
    requires WellPlaced(l) && l.varCols == 0 && |fixed| == l.fixedSize
    ensures VarCount(l.cols[..|l.cols|]) == 0
    ensures Decode(l, fixed, ss, |l.cols|) == Decode(l, fixed, ts, |l.cols|)
  {
    var n := |l.cols|;
    assert l.cols[..n] == l.cols;
    forall c | 0 <= c < n
      ensures ColumnAt(l, fixed, ss, n, c) == ColumnAt(l, fixed, ts, n, c)
    {
      Inside(l.cols, c, n);
    }
  }

  /** The fixed part of a new row: the numbers in column order, hidden ones zero. */
  method WriteNumbers(l: Layout, values: seq<Value>) returns (fixed: array<Byte>)
    requires WellPlaced(l) && Matches(l, values)
    ensures fresh(fixed) && FixedSoFar(l, Initial(l, values), |l.cols|, fixed[..])
  {
    hide VarCount, FixedEnd, Placed, Overwrite, FixedSoFar, Initial, WellPlaced;
    ghost var vals := Initial(l, values);
    InitialKinds(l, values);
    fixed := new Byte[l.fixedSize](_ => 0);
    assert fixed[..] == Zeros(l.fixedSize);
    NoNumbersYet(l, vals);
    NoneYet(l, vals, []);
    var pos := 0;
    for i := 0 to |values|
      invariant pos == FixedEnd(l.cols[..i])
      invariant FixedSoFar(l, vals, i, fixed[..])
    {
      assert vals[i] == values[i] by { assert vals[..|values|][i] == values[i]; }
      Next(l.cols, i);
      match values[i].kind {
        case Str =>
          FixedSkip(l, vals, i, fixed[..]);
        case _ =>
          FixedStep(l, vals, i, fixed[..]);
          Memcpy(fixed, pos, values[i].bytes);
          pos := pos + Width(values[i].kind);
      }
    }
    for i := |values| to |l.cols|
      invariant pos == FixedEnd(l.cols[..i])
      invariant FixedSoFar(l, vals, i, fixed[..])
    {
      assert vals[i] == Default(l.cols[i].kind) by { InitialHidden(l, values, i); }
      Next(l.cols, i);
      FixedSkip(l, vals, i, fixed[..]);
      pos := pos + Width(l.cols[i].kind);
    }
    assert pos == l.fixedSize by { Totals(l); }
  }

  lemma InitialHidden(l: Layout, values: seq<Value>, i: nat)
    requires Matches(l, values) && |values| <= i < |l.cols|
    ensures Initial(l, values)[i] == Default(l.cols[i].kind)
  {
  }

  lemma Totals(l: Layout)
    requires WellPlaced(l)
    ensures l.cols[..|l.cols|] == l.cols
    ensures FixedEnd(l.cols[..|l.cols|]) == l.fixedSize && VarCount(l.cols[..|l.cols|]) == l.varCols
  {
    assert l.cols[..|l.cols|] == l.cols;
  }

  /**
   * The string part of a new row: hidden strings are empty segments.  A hidden string with no string before it makes
   * the source read in front of its index table; that is a failure here.
   */
  method WriteStrings(l: Layout, values: seq<Value>) returns (ok: bool, part: array<Byte>, idx: array<nat>)
    requires WellPlaced(l) && Matches(l, values)
    ensures ok <==> Creatable(l)
    ensures fresh(part) && fresh(idx)
    ensures ok ==> idx.Length == l.varCols && VarSoFar(l, Initial(l, values), |l.cols|, part[..], idx[..])
  {
    hide VarCount, FixedEnd, Placed, VarSoFar, Initial;
    ghost var vals := Initial(l, values);
    InitialKinds(l, values);
    Totals(l);
    Grows(l.cols, |values|, |l.cols|);
    var used;
    part, idx, used := PackStrings(l, values, |values|, l.varCols);
    VarPrefix(l, values, vals, |values|, part[..], idx[..used]);
    for i := |values| to |l.cols|
      invariant used == VarCount(l.cols[..i]) >= VarCount(l.cols[..|values|])
      invariant used <= l.varCols
      invariant VarCount(l.cols[..|values|]) == 0 ==> used == 0
      invariant VarSoFar(l, vals, i, part[..], idx[..used])
    {
      InitialHidden(l, values, i);
      Next(l.cols, i);
      Grows(l.cols, i + 1, |l.cols|);
      if l.cols[i].kind.Str? {
        HiddenCounted(l, i);
        if used == 0 {
          return false, part, idx;
        }
        VarHidden(l, vals, i, part[..], idx[..used]);
        ghost var ends := idx[..used];
        idx[used] := idx[used - 1];
        used := used + 1;
        assert idx[..used] == ends + [ends[|ends| - 1]];
      } else {
        VarSkip(l, vals, i, part[..], idx[..used]);
      }
    }
    assert used == l.varCols;
    assert idx[..used] == idx[..];
    ok := true;
  }

  method Create(l: Layout, values: seq<Value>) returns (r: Option<Row>)
    requires WellPlaced(l) && Matches(l, values)
    ensures r.Some? <==> Creatable(l)
    ensures r.Some? ==>
      && var row := r.value;
      && fresh(row) && fresh(row.fixedPart) && fresh(row.varPart) && fresh(row.varIdx) && fresh(row.sparseVar)
      && row.Valid() && row.layout == l && !row.readonly
      && row.All() == Initial(l, values)
  {
    hide VarCount, FixedEnd, Placed, Initial, Decode, Segments, Creatable;
    Totals(l);
    InitialKinds(l, values);
    var fixed := WriteNumbers(l, values);
    var ok, part, idx := WriteStrings(l, values);
    if !ok {
      return None;
    }
    var row := new Row();
    row.layout, row.fixedPart, row.varPart, row.varIdx := l, fixed, part, idx;
    ghost var vals := Initial(l, values);
    Decoded(l, vals, |l.cols|, fixed[..], part[..], idx[..]);
    assert vals[..|l.cols|] == vals;
    r := Some(row);
  }

  /** The visible columns, and how many of them are strings. */
  method ReadVisible(source: Row) returns (vals: seq<Value>, count: nat)
    requires source.Valid()
    ensures vals == source.All()[..Visible(source.layout)]
    ensures count == VarCount(source.layout.cols[..Visible(source.layout)])
  {
    hide VarCount, FixedEnd, Placed, Decode, Segments, Ascends;
    ghost var all := source.All();
    DecodeKinds(source.layout, source.fixedPart[..], source.Strings());
    NoneYet(source.layout, [], []);
    vals, count := [], 0;
    for i := 0 to Visible(source.layout)
      invariant vals == all[..i]
      invariant count == VarCount(source.layout.cols[..i])
    {
      Next(source.layout.cols, i);
      var b := source.GetBlob(i);
      vals := vals + [Value(source.layout.cols[i].kind, b)];
      if source.layout.cols[i].kind.Str? {
        count := count + 1;
      }
    }
  }

  /** A copy is always dense.  Only visible strings are copied. */
  method Copy(source: Row) returns (row: Row)
    requires source.Valid()
    ensures fresh(row) && fresh(row.fixedPart) && fresh(row.varPart) && fresh(row.varIdx) && fresh(row.sparseVar)
    ensures row.layout == source.layout && !row.readonly && !row.sparse
    ensures row.Holds(Visible(row.layout))
    ensures row.Columns(Visible(row.layout)) == source.All()[..Visible(row.layout)]
    ensures row.Valid() <==> source.layout.hiddenVar == 0
    ensures row.Valid() ==> row.All() == source.All()
  {
    hide VarCount, FixedEnd, Placed, Decode, Segments, VarSoFar, FixedSoFar, Ascends, Overwrite;
    var l := source.layout;
    ghost var all := source.All();
    Totals(l);
    DecodeKinds(l, source.fixedPart[..], source.Strings());
    var fixed := new Byte[l.fixedSize];
    OverwriteAll(fixed[..], source.fixedPart[..]);
    Memcpy(fixed, 0, source.fixedPart[..]);
    var vals, count := ReadVisible(source);
    var part, idx, used := PackStrings(l, vals, |vals|, count);
    assert idx[..used] == idx[..];
    VarPrefix(l, vals, all, |vals|, part[..], idx[..]);
    CopyDecodes(l, all, fixed[..], part[..], idx[..]);
    row := new Row();
    row.layout, row.fixedPart, row.varPart, row.varIdx := l, fixed, part, idx;
  }

  /** The row after any writes, splits and copies; the copies are rows of their own. */
  method Replay(row: Row, ops: seq<RowOp>) returns (r: Row)
    requires row.Valid() && !row.readonly && OpsFit(row.layout, ops)
    modifies row, row.fixedPart, row.varPart, row.sparseVar
    ensures r.Valid() && !r.readonly && r.layout == old(row.layout)
    ensures LastValues(old(row.All()), ops, r.All())
  {
    hide WellPlaced, Decode, Segments, VarCount, Ascends, LastValues, Done;
    ghost var first := row.All();
    ghost var l := row.layout;
    r := row;
    for i := 0 to |ops|
      invariant r.Valid() && !r.readonly && r.layout == l && OpsFit(l, ops)
      invariant r == row || fresh(r)
      invariant r.fixedPart == old(row.fixedPart) || fresh(r.fixedPart)
      invariant r.varPart == old(row.varPart) || fresh(r.varPart)
      invariant r.sparseVar == old(row.sparseVar) || fresh(r.sparseVar)
      invariant r.All() == AllDone(first, ops[..i])
    {
      assert ops[..i + 1][..i] == ops[..i];
      r := Perform(r, ops[i]);
    }
    assert ops[..|ops|] == ops;
    LastWins(first, ops);
  }

  method Perform(row: Row, op: RowOp) returns (r: Row)
    requires row.Valid() && !row.readonly && OpFits(row.layout, op)
    modifies row, row.fixedPart, row.varPart, row.sparseVar
    ensures r.Valid() && !r.readonly && r.layout == old(row.layout)
    ensures r == row || fresh(r)
    ensures r.fixedPart == old(row.fixedPart) || fresh(r.fixedPart)
    ensures r.varPart == old(row.varPart) || fresh(r.varPart)
    ensures r.sparseVar == old(row.sparseVar) || fresh(r.sparseVar)
    ensures r.All() == Done(old(row.All()), op)
  {
    hide WellPlaced, Decode, Segments, VarCount, Ascends;
    r := row;
    match op {
      case Write(c, v) => row.Update(c, v);
      case Sparsen => row.MakeSparse();
      case Duplicate => r := Copy(row);
    }
  }

  method ReadAll(row: Row) returns (seen: seq<Value>)
    requires row.Valid()
    ensures seen == row.All()
  {
    hide WellPlaced, Decode, Segments, VarCount, Ascends;
    seen := [];
    for c := 0 to |row.layout.cols|
      invariant seen == row.All()[..c]
    {
      var v := row.GetColumn(c);
      seen := seen + [v];
    }
  }

  /** A new row, any operations on it, and then every column read. */
  method CreateAndReplay(l: Layout, values: seq<Value>, ops: seq<RowOp>) returns (seen: Option<seq<Value>>)
    requires WellPlaced(l) && Matches(l, values) && OpsFit(l, ops)
    ensures seen.Some? <==> Creatable(l)
    ensures seen.Some? ==> LastValues(Initial(l, values), ops, seen.value)
  {
    hide WellPlaced, Decode, Segments, VarCount, Ascends, LastValues, Initial, Creatable;
    var made := Create(l, values);
    if made == None {
      return None;
    }
    var row := Replay(made.value, ops);
    var all := ReadAll(row);
    seen := Some(all);
  }

  /** A visible string `a` and a hidden string `b`, as a schema lays them out. */
  function NoteLayout(a: string, b: string): Layout {
    Hidden(Added(Added(Layout([], 0, 0, 0, 0), a, Str, false), b, Str, false), Str)
  }

  lemma NoteFits(a: string, b: string, v: Value)
    requires v.kind == Str
    ensures Matches(NoteLayout(a, b), [v]) && NoteLayout(a, b).hiddenVar == 1
    ensures Creatable(NoteLayout(a, b))
  {
    hide VarCount;
    Next(NoteLayout(a, b).cols, 0);
    assert Visible(NoteLayout(a, b)) == 1;
  }

  method MakeNoteLayout(a: string, b: string) returns (schema: Schema)
    requires a != b
    ensures schema.Valid() && schema.layout == NoteLayout(a, b)
  {
    hide WellPlaced, Named, VarCount, FixedEnd;
    schema := new Schema();
    var _ := schema.AddColumn(a, Str, false);
    var _ := schema.AddHiddenColumn(b, Str);
  }

  /** A row of that layout is whole, its copy is not. */
  method HiddenStringLost() returns (row: Row, copy: Row)
    ensures row.Valid() && copy.layout == row.layout && !copy.Valid()
  {
    hide WellPlaced, Named, Decode, Segments, VarCount, Ascends, Initial, Matches, NoteLayout, Creatable;
    var schema := MakeNoteLayout("a", "b");
    NoteFits("a", "b", Value(Str, []));
    var made := Create(schema.layout, [Value(Str, [])]);
    row := made.value;
    copy := Copy(row);
  }

  /** A hidden column under the name of the only visible one: nothing is added and no column is visible any more. */
  method TakenNameHides() returns (schema: Schema)
    ensures |schema.layout.cols| == 1 && Visible(schema.layout) == 0
  {
    hide WellPlaced, Named;
    schema := new Schema();
    var _ := schema.AddColumn("id", I32, true);
    var id := schema.AddHiddenColumn("id", I64);
    assert id == -1;
  }
}
