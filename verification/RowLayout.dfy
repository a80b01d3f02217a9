/**
 * Where a row keeps its columns (rococo-dst/memdb/schema.h:17-110,
 * rococo-dst/memdb/schema.cc:10-53): numbers at fixed byte offsets, strings
 * in numbered slots of a variable-size part.
 */
module RowLayout {
  type Byte = b: int | 0 <= b < 256

  datatype Kind = I32 | I64 | Double | Str

  /** A value is its kind and the bytes of its machine representation. */
  datatype Value = Value(kind: Kind, bytes: seq<Byte>)

  /** `place` is a byte offset for a number and a slot number for a string. */
  datatype Column = Column(name: string, kind: Kind, indexed: bool, place: nat)

  datatype Layout = Layout(cols: seq<Column>, varCols: nat, fixedSize: nat,
                           hiddenFixed: nat, hiddenVar: nat)

  function Width(k: Kind): nat {
    match k
    case I32 => 4
    case I64 => 8
    case Double => 8
    case Str => 0
  }

  predicate Sized(v: Value) {
    v.kind.Str? || |v.bytes| == Width(v.kind)
  }

  /** Bytes taken by the numbers among `cols`. */
  function FixedEnd(cols: seq<Column>): nat {
    if cols == [] then 0 else FixedEnd(cols[..|cols| - 1]) + Width(cols[|cols| - 1].kind)
  }

  /** Slots taken by the strings among `cols`. */
  function VarCount(cols: seq<Column>): nat {
    if cols == [] then 0 else VarCount(cols[..|cols| - 1]) + (if cols[|cols| - 1].kind.Str? then 1 else 0)
  }

  function Visible(l: Layout): int { |l.cols| - l.hiddenFixed - l.hiddenVar }

  ghost predicate PlacedAt(cols: seq<Column>, c: nat)
    requires c < |cols|
  {
    cols[c].place == if cols[c].kind.Str? then VarCount(cols[..c]) else FixedEnd(cols[..c])
  }

  ghost predicate Placed(cols: seq<Column>) {
    forall c :: 0 <= c < |cols| ==> PlacedAt(cols, c)
  }

  ghost predicate WellPlaced(l: Layout) {
    && Placed(l.cols)
    && l.varCols == VarCount(l.cols)
    && l.fixedSize == FixedEnd(l.cols)
    && 0 <= Visible(l)
    && VarCount(l.cols[..Visible(l)]) + l.hiddenVar == l.varCols
  }

  lemma Next(cols: seq<Column>, c: nat)
    requires c < |cols|
    ensures FixedEnd(cols[..c + 1]) == FixedEnd(cols[..c]) + Width(cols[c].kind)
    ensures VarCount(cols[..c + 1]) == VarCount(cols[..c]) + (if cols[c].kind.Str? then 1 else 0)
  {
    assert cols[..c + 1][..c] == cols[..c];
  }

  lemma {:induction false} Grows(cols: seq<Column>, c: nat, d: nat)
    requires c <= d <= |cols|
    ensures FixedEnd(cols[..c]) <= FixedEnd(cols[..d])
    ensures VarCount(cols[..c]) <= VarCount(cols[..d])
  {
    hide *;
    if c < d {
      Grows(cols, c, d - 1);
      Next(cols, d - 1);
    }
  }

  /** Where five columns lie: numbers of 4, 8 and 8 bytes one behind the other, strings in slots of their own. */
  lemma FivePlaces(cols: seq<Column>)
    requires Placed(cols) && |cols| == 5
    requires cols[0].kind == I32 && cols[1].kind == I64 && cols[2].kind == Str && cols[3].kind == Double
    requires cols[4].kind == Str
    ensures cols[0].place == 0 && cols[1].place == 4 && cols[2].place == 0 && cols[3].place == 12 && cols[4].place == 1
    ensures FixedEnd(cols) == 20 && VarCount(cols) == 2
  {
    assert cols[..0] == [] && cols[..5] == cols;
    assert FixedEnd(cols[..0]) == 0 && VarCount(cols[..0]) == 0;
    hide FixedEnd, VarCount;
    assert PlacedAt(cols, 0) && PlacedAt(cols, 1) && PlacedAt(cols, 2) && PlacedAt(cols, 3) && PlacedAt(cols, 4);
    Next(cols, 0);
    Next(cols, 1);
    Next(cols, 2);
    Next(cols, 3);
    Next(cols, 4);
  }

  /** Every column lies inside its part of the row. */
  lemma Inside(cols: seq<Column>, c: nat, n: nat)
    requires Placed(cols) && c < n <= |cols|
    ensures cols[c].kind.Str? ==> cols[c].place < VarCount(cols[..n]) <= VarCount(cols)
    ensures !cols[c].kind.Str? ==> cols[c].place + Width(cols[c].kind) <= FixedEnd(cols)
  {
    assert PlacedAt(cols, c);
    Next(cols, c);
    Grows(cols, c + 1, n);
    Grows(cols, n, |cols|);
    assert cols[..|cols|] == cols;
  }

  /** No two columns share a byte or a slot: they lie in column order. */
  lemma RegionsApart(cols: seq<Column>, c: nat, d: nat)
    requires Placed(cols) && c < d < |cols|
    ensures !cols[c].kind.Str? && !cols[d].kind.Str? ==> cols[c].place + Width(cols[c].kind) <= cols[d].place
    ensures cols[c].kind.Str? && cols[d].kind.Str? ==> cols[c].place < cols[d].place
  {
    assert PlacedAt(cols, c) && PlacedAt(cols, d);
    Next(cols, c);
    Grows(cols, c + 1, d);
  }

  /** A slot is some column's. */
  lemma {:induction false} SlotOwner(cols: seq<Column>, s: nat) returns (c: nat)
    requires Placed(cols) && s < VarCount(cols)
    ensures c < |cols| && cols[c].kind.Str? && cols[c].place == s
  {
    var most := |cols| - 1;
    assert PlacedAt(cols, most);
    if cols[most].kind.Str? && VarCount(cols[..most]) == s {
      c := most;
    } else {
      forall i | 0 <= i < most
        ensures PlacedAt(cols[..most], i)
      {
        assert PlacedAt(cols, i) && cols[..most][..i] == cols[..i];
      }
      c := SlotOwner(cols[..most], s);
    }
  }

  /** The column a layout gives the next name (schema.cc:24-47). */
  function Added(l: Layout, name: string, kind: Kind, key: bool): Layout {
    l.(cols := l.cols + [Column(name, kind, key, if kind.Str? then l.varCols else l.fixedSize)],
       varCols := l.varCols + (if kind.Str? then 1 else 0),
       fixedSize := l.fixedSize + Width(kind))
  }

  /** One more column counts as hidden (schema.h:94-98). */
  function Hidden(l: Layout, kind: Kind): Layout {
    if kind.Str? then l.(hiddenVar := l.hiddenVar + 1) else l.(hiddenFixed := l.hiddenFixed + 1)
  }

  lemma AddedPlaced(l: Layout, name: string, kind: Kind, key: bool)
    requires WellPlaced(l)
    ensures var m := Added(l, name, kind, key);
      && Placed(m.cols) && m.varCols == VarCount(m.cols) && m.fixedSize == FixedEnd(m.cols)
  {
    hide FixedEnd, VarCount;
    var m, n := Added(l, name, kind, key), |l.cols|;
    assert m.cols[..n] == l.cols && m.cols[..n + 1] == m.cols;
    Next(m.cols, n);
    forall c | 0 <= c < |m.cols|
      ensures PlacedAt(m.cols, c)
    {
      if c < n {
        assert PlacedAt(l.cols, c) && m.cols[..c] == l.cols[..c];
      }
    }
  }

  /** The name index holds each column under its own name. */
  ghost predicate Named(names: map<string, nat>, cols: seq<Column>) {
    && |names| == |cols|
    && (forall c :: 0 <= c < |cols| ==> cols[c].name in names && names[cols[c].name] == c)
    && (forall n :: n in names ==> names[n] < |cols| && cols[names[n]].name == n)
  }

  lemma NamedNone()
    ensures Named(map[], []) && WellPlaced(Layout([], 0, 0, 0, 0))
  {
  }

  lemma NamedSize(names: map<string, nat>, cols: seq<Column>)
    requires Named(names, cols)
    ensures |names| == |cols|
  {
  }

  lemma NamedAdd(names: map<string, nat>, cols: seq<Column>, col: Column)
    requires Named(names, cols) && col.name !in names
    ensures Named(names[col.name := |cols|], cols + [col])
  {
  }

  // ---- strings back to back ----

  /** `ends[i]` is where string i stops; it starts where the one before stops. */
  ghost predicate Ascends(ends: seq<nat>, size: nat) {
    && (forall i, j :: 0 <= i <= j < |ends| ==> ends[i] <= ends[j])
    && (forall i :: 0 <= i < |ends| ==> ends[i] <= size)
  }

  function Start(ends: seq<nat>, i: nat): nat
    requires i <= |ends|
  {
    if i == 0 then 0 else ends[i - 1]
  }

  ghost function Segment(part: seq<Byte>, ends: seq<nat>, i: nat): seq<Byte>
    requires Ascends(ends, |part|) && i < |ends|
  {
    part[Start(ends, i)..ends[i]]
  }

  ghost function Segments(part: seq<Byte>, ends: seq<nat>): (strings: seq<seq<Byte>>)
    requires Ascends(ends, |part|)
    ensures |strings| == |ends|
  {
    seq(|ends|, i requires 0 <= i < |ends| => Segment(part, ends, i))
  }

  lemma SegmentAt(part: seq<Byte>, ends: seq<nat>, i: nat)
    requires Ascends(ends, |part|) && i < |ends|
    ensures Start(ends, i) <= ends[i] <= |part|
    ensures Segments(part, ends)[i] == part[Start(ends, i)..ends[i]]
  {
  }

  /** `part` with `bytes` written at `at`. */
  function Overwrite(part: seq<Byte>, at: nat, bytes: seq<Byte>): (r: seq<Byte>)
    requires at + |bytes| <= |part|
    ensures |r| == |part|
  {
    part[..at] + bytes + part[at + |bytes|..]
  }

  lemma OverwriteAll(part: seq<Byte>, bytes: seq<Byte>)
    requires |bytes| == |part|
    ensures Overwrite(part, 0, bytes) == bytes
  {
  }

  lemma OverwriteSlices(part: seq<Byte>, at: nat, bytes: seq<Byte>, lo: nat, hi: nat)
    requires at + |bytes| <= |part| && lo <= hi <= |part|
    ensures lo == at && hi == at + |bytes| ==> Overwrite(part, at, bytes)[lo..hi] == bytes
    ensures hi <= at || at + |bytes| <= lo ==> Overwrite(part, at, bytes)[lo..hi] == part[lo..hi]
  {
    var r := Overwrite(part, at, bytes);
    if hi <= at || at + |bytes| <= lo {
      forall k | lo <= k < hi ensures r[k] == part[k] {}
    }
  }

  /** Writing a string of the same length in place changes that string alone. */
  lemma SameSizeInPlace(part: seq<Byte>, ends: seq<nat>, i: nat, bytes: seq<Byte>)
    requires Ascends(ends, |part|) && i < |ends| && |bytes| == ends[i] - Start(ends, i)
    ensures Segments(Overwrite(part, Start(ends, i), bytes), ends) == Segments(part, ends)[i := bytes]
  {
    var r := Overwrite(part, Start(ends, i), bytes);
    forall j | 0 <= j < |ends|
      ensures Segment(r, ends, j) == if j == i then bytes else Segment(part, ends, j)
    {
      OverwriteSlices(part, Start(ends, i), bytes, Start(ends, j), ends[j]);
    }
  }

  // ---- the columns a row's storage stands for ----

  ghost function ColumnAt(l: Layout, fixed: seq<Byte>, strings: seq<seq<Byte>>, n: nat, c: nat): Value
    requires WellPlaced(l) && c < n <= |l.cols|
    requires |fixed| == l.fixedSize && VarCount(l.cols[..n]) <= |strings|
  {
    Inside(l.cols, c, n);
    var col := l.cols[c];
    Value(col.kind, if col.kind.Str? then strings[col.place] else fixed[col.place..col.place + Width(col.kind)])
  }

  /** The first n columns. */
  ghost function Decode(l: Layout, fixed: seq<Byte>, strings: seq<seq<Byte>>, n: nat): (vs: seq<Value>)
    requires WellPlaced(l) && n <= |l.cols|
    requires |fixed| == l.fixedSize && VarCount(l.cols[..n]) <= |strings|
    ensures |vs| == n
  {
    seq(n, c requires 0 <= c < n => ColumnAt(l, fixed, strings, n, c))
  }

  /** A number's bytes written at column c, seen at column d. */
  lemma FixedColumn(l: Layout, fixed: seq<Byte>, c: nat, bytes: seq<Byte>, d: nat)
    requires WellPlaced(l) && c < |l.cols| && !l.cols[c].kind.Str? && |bytes| == Width(l.cols[c].kind)
    requires |fixed| == l.fixedSize && d < |l.cols| && !l.cols[d].kind.Str?
    ensures var lo := l.cols[d].place; var hi := lo + Width(l.cols[d].kind);
      && l.cols[c].place + |bytes| <= |fixed| && hi <= |fixed|
      && Overwrite(fixed, l.cols[c].place, bytes)[lo..hi] == if d == c then bytes else fixed[lo..hi]
  {
    hide Overwrite, Placed;
    Inside(l.cols, c, |l.cols|);
    Inside(l.cols, d, |l.cols|);
    OverwriteSlices(fixed, l.cols[c].place, bytes, l.cols[d].place, l.cols[d].place + Width(l.cols[d].kind));
    if c < d {
      RegionsApart(l.cols, c, d);
    } else if d < c {
      RegionsApart(l.cols, d, c);
    }
  }

  lemma FixedWrite(l: Layout, fixed: seq<Byte>, strings: seq<seq<Byte>>, c: nat, bytes: seq<Byte>)
    requires WellPlaced(l) && c < |l.cols| && !l.cols[c].kind.Str? && |bytes| == Width(l.cols[c].kind)
    requires |fixed| == l.fixedSize && VarCount(l.cols[..|l.cols|]) <= |strings|
    ensures l.cols[c].place + |bytes| <= |fixed|
    ensures Decode(l, Overwrite(fixed, l.cols[c].place, bytes), strings, |l.cols|)
         == Decode(l, fixed, strings, |l.cols|)[c := Value(l.cols[c].kind, bytes)]
  {
    hide Overwrite, WellPlaced;
    var n := |l.cols|;
    FixedColumn(l, fixed, c, bytes, c);
    var r := Overwrite(fixed, l.cols[c].place, bytes);
    forall d | 0 <= d < n
      ensures ColumnAt(l, r, strings, n, d)
           == if d == c then Value(l.cols[c].kind, bytes) else ColumnAt(l, fixed, strings, n, d)
    {
      if !l.cols[d].kind.Str? {
        FixedColumn(l, fixed, c, bytes, d);
      }
    }
  }

  lemma StringWrite(l: Layout, fixed: seq<Byte>, strings: seq<seq<Byte>>, c: nat, bytes: seq<Byte>)
    requires WellPlaced(l) && c < |l.cols| && l.cols[c].kind.Str?
    requires |fixed| == l.fixedSize && VarCount(l.cols[..|l.cols|]) <= |strings|
    ensures l.cols[c].place < |strings|
    ensures Decode(l, fixed, strings[l.cols[c].place := bytes], |l.cols|)
         == Decode(l, fixed, strings, |l.cols|)[c := Value(Str, bytes)]
  {
    var n := |l.cols|;
    Inside(l.cols, c, n);
    var r := strings[l.cols[c].place := bytes];
    forall d | 0 <= d < n
      ensures ColumnAt(l, fixed, r, n, d)
           == if d == c then Value(Str, bytes) else ColumnAt(l, fixed, strings, n, d)
    {
      Inside(l.cols, d, n);
      if c < d { RegionsApart(l.cols, c, d); }
      if d < c { RegionsApart(l.cols, d, c); }
    }
  }

  // ---- what a new row holds ----

  ghost predicate Matches(l: Layout, values: seq<Value>) {
    && |values| == Visible(l) <= |l.cols|
    && forall c :: 0 <= c < |values| ==> values[c].kind == l.cols[c].kind && Sized(values[c])
  }

  /** A hidden string takes its end from the string before it, so there must be a visible one. */
  ghost predicate Creatable(l: Layout)
    requires 0 <= Visible(l)
  {
    l.hiddenVar == 0 || VarCount(l.cols[..Visible(l)]) > 0
  }

  function Zeros(n: nat): (z: seq<Byte>)
    ensures |z| == n
  {
    seq(n, i => 0)
  }

  /** A hidden column starts as zero or as the empty string. */
  function Default(k: Kind): Value {
    Value(k, Zeros(Width(k)))
  }

  ghost function Initial(l: Layout, values: seq<Value>): (vs: seq<Value>)
    requires Matches(l, values)
    ensures |vs| == |l.cols|
  {
    seq(|l.cols|, c requires 0 <= c < |l.cols| => if c < |values| then values[c] else Default(l.cols[c].kind))
  }

  /** The number in column d is `bytes`. */
  ghost predicate Held(l: Layout, fixed: seq<Byte>, d: nat, bytes: seq<Byte>)
    requires d < |l.cols|
  {
    && l.cols[d].place + Width(l.cols[d].kind) <= |fixed|
    && fixed[l.cols[d].place..l.cols[d].place + Width(l.cols[d].kind)] == bytes
  }

  ghost predicate Clear(fixed: seq<Byte>, from: nat) {
    forall p :: from <= p < |fixed| ==> fixed[p] == 0
  }

  /** The numbers among the first i columns are written and the rest is zero. */
  ghost predicate FixedSoFar(l: Layout, vals: seq<Value>, i: nat, fixed: seq<Byte>)
    requires i <= |vals| == |l.cols|
  {
    && WellPlaced(l) && |fixed| == l.fixedSize
    && (forall c :: 0 <= c < i && !l.cols[c].kind.Str? ==> Held(l, fixed, c, vals[c].bytes))
    && Clear(fixed, FixedEnd(l.cols[..i]))
  }

  ghost predicate Kinds(l: Layout, vals: seq<Value>) {
    && |vals| == |l.cols|
    && forall c :: 0 <= c < |vals| ==> vals[c].kind == l.cols[c].kind && Sized(vals[c])
  }

  lemma ClearAfter(fixed: seq<Byte>, at: nat, bytes: seq<Byte>)
    requires Clear(fixed, at) && at + |bytes| <= |fixed|
    ensures Clear(Overwrite(fixed, at, bytes), at + |bytes|)
  {
  }

  lemma HeldAfter(l: Layout, fixed: seq<Byte>, i: nat, bytes: seq<Byte>, d: nat, was: seq<Byte>)
    requires WellPlaced(l) && i < |l.cols| && !l.cols[i].kind.Str? && |bytes| == Width(l.cols[i].kind)
    requires |fixed| == l.fixedSize && d < |l.cols| && !l.cols[d].kind.Str?
    requires d == i || Held(l, fixed, d, was)
    ensures l.cols[i].place + |bytes| <= |fixed|
    ensures Held(l, Overwrite(fixed, l.cols[i].place, bytes), d, if d == i then bytes else was)
  {
    FixedColumn(l, fixed, i, bytes, d);
  }

  lemma OffsetOf(cols: seq<Column>, i: nat)
    requires Placed(cols) && i < |cols| && !cols[i].kind.Str?
    ensures cols[i].place == FixedEnd(cols[..i])
    ensures FixedEnd(cols[..i + 1]) == cols[i].place + Width(cols[i].kind)
  {
    assert PlacedAt(cols, i);
    Next(cols, i);
  }

  lemma FixedStep(l: Layout, vals: seq<Value>, i: nat, fixed: seq<Byte>)
    requires Kinds(l, vals) && i < |vals| && FixedSoFar(l, vals, i, fixed) && !l.cols[i].kind.Str?
    ensures l.cols[i].place == FixedEnd(l.cols[..i])
    ensures l.cols[i].place + |vals[i].bytes| <= |fixed|
    ensures FixedSoFar(l, vals, i + 1, Overwrite(fixed, l.cols[i].place, vals[i].bytes))
  {
    hide Overwrite, Held, Clear, Placed, FixedEnd, VarCount;
    OffsetOf(l.cols, i);
    HeldAfter(l, fixed, i, vals[i].bytes, i, []);
    ClearAfter(fixed, l.cols[i].place, vals[i].bytes);
    forall c | 0 <= c < i && !l.cols[c].kind.Str?
      ensures Held(l, Overwrite(fixed, l.cols[i].place, vals[i].bytes), c, vals[c].bytes)
    {
      HeldAfter(l, fixed, i, vals[i].bytes, c, vals[c].bytes);
    }
  }

  lemma FixedSkip(l: Layout, vals: seq<Value>, i: nat, fixed: seq<Byte>)
    requires Kinds(l, vals) && i < |vals| && FixedSoFar(l, vals, i, fixed)
    requires l.cols[i].kind.Str? || vals[i] == Default(l.cols[i].kind)
    ensures FixedSoFar(l, vals, i + 1, fixed)
  {
    hide FixedEnd, VarCount, Placed;
    Next(l.cols, i);
    if !l.cols[i].kind.Str? {
      OffsetOf(l.cols, i);
      Inside(l.cols, i, i + 1);
    }
  }

  /** The strings among the first i columns lie back to back in slot order. */
  ghost predicate VarSoFar(l: Layout, vals: seq<Value>, i: nat, part: seq<Byte>, ends: seq<nat>)
    requires i <= |l.cols| && i <= |vals|
  {
    && |ends| == VarCount(l.cols[..i])
    && Ascends(ends, |part|)
    && forall c :: 0 <= c < i && l.cols[c].kind.Str? ==>
         l.cols[c].place < |ends| && Segment(part, ends, l.cols[c].place) == vals[c].bytes
  }

  /** One more string at the end leaves the others as they were. */
  lemma Appended(part: seq<Byte>, ends: seq<nat>, bytes: seq<Byte>)
    requires Ascends(ends, |part|) && Start(ends, |ends|) + |bytes| <= |part|
    ensures var at := Start(ends, |ends|); var es := ends + [at + |bytes|];
      && Ascends(es, |part|)
      && Segment(Overwrite(part, at, bytes), es, |ends|) == bytes
      && forall s :: 0 <= s < |ends| ==> Segment(Overwrite(part, at, bytes), es, s) == Segment(part, ends, s)
  {
    hide Overwrite;
    var at := Start(ends, |ends|);
    OverwriteSlices(part, at, bytes, at, at + |bytes|);
    forall s | 0 <= s < |ends|
      ensures Segment(Overwrite(part, at, bytes), ends + [at + |bytes|], s) == Segment(part, ends, s)
    {
      OverwriteSlices(part, at, bytes, Start(ends, s), ends[s]);
    }
  }

  lemma VarStep(l: Layout, vals: seq<Value>, i: nat, part: seq<Byte>, ends: seq<nat>)
    requires Placed(l.cols) && i < |l.cols| && i < |vals| && VarSoFar(l, vals, i, part, ends)
    requires l.cols[i].kind.Str? && Start(ends, |ends|) + |vals[i].bytes| <= |part|
    ensures var at := Start(ends, |ends|);
      VarSoFar(l, vals, i + 1, Overwrite(part, at, vals[i].bytes), ends + [at + |vals[i].bytes|])
  {
    hide Overwrite, VarCount, Placed, Segment, Start, Ascends;
    Next(l.cols, i);
    SlotOf(l.cols, i);
    Appended(part, ends, vals[i].bytes);
  }

  lemma SlotOf(cols: seq<Column>, i: nat)
    requires Placed(cols) && i < |cols| && cols[i].kind.Str?
    ensures cols[i].place == VarCount(cols[..i])
  {
    assert PlacedAt(cols, i);
  }

  lemma VarSkip(l: Layout, vals: seq<Value>, i: nat, part: seq<Byte>, ends: seq<nat>)
    requires i < |l.cols| && i < |vals| && VarSoFar(l, vals, i, part, ends)
    requires !l.cols[i].kind.Str?
    ensures VarSoFar(l, vals, i + 1, part, ends)
  {
    Next(l.cols, i);
  }

  /** Storage that holds the first n values decodes to them. */
  lemma Decoded(l: Layout, vals: seq<Value>, n: nat, fixed: seq<Byte>, part: seq<Byte>, ends: seq<nat>)
    requires Kinds(l, vals) && n <= |vals|
    requires WellPlaced(l) && |fixed| == l.fixedSize && VarSoFar(l, vals, n, part, ends)
    requires forall c :: 0 <= c < n && !l.cols[c].kind.Str? ==> Held(l, fixed, c, vals[c].bytes)
    ensures Decode(l, fixed, Segments(part, ends), n) == vals[..n]
  {
    forall c | 0 <= c < n
      ensures ColumnAt(l, fixed, Segments(part, ends), n, c) == vals[c]
    {
      Inside(l.cols, c, n);
    }
  }

  /** Bytes the strings among the first i values need. */
  function VarSize(vals: seq<Value>, i: nat): nat
    requires i <= |vals|
  {
    if i == 0 then 0 else VarSize(vals, i - 1) + (if vals[i - 1].kind.Str? then |vals[i - 1].bytes| else 0)
  }

  lemma {:induction false} VarSizeGrows(vals: seq<Value>, i: nat, j: nat)
    requires i <= j <= |vals|
    ensures VarSize(vals, i) <= VarSize(vals, j)
  {
    if i < j {
      VarSizeGrows(vals, i, j - 1);
    }
  }

  lemma ColumnHeld(l: Layout, fixed: seq<Byte>, strings: seq<seq<Byte>>, c: nat)
    requires WellPlaced(l) && |fixed| == l.fixedSize && VarCount(l.cols[..|l.cols|]) <= |strings|
    requires c < |l.cols|
    ensures var v := ColumnAt(l, fixed, strings, |l.cols|, c);
      v.kind == l.cols[c].kind && Sized(v) && (!v.kind.Str? ==> Held(l, fixed, c, v.bytes))
  {
    Inside(l.cols, c, |l.cols|);
  }

  /** A row's own columns are the values its numbers part holds. */
  lemma DecodeKinds(l: Layout, fixed: seq<Byte>, strings: seq<seq<Byte>>)
    requires WellPlaced(l) && |fixed| == l.fixedSize && VarCount(l.cols[..|l.cols|]) <= |strings|
    ensures Kinds(l, Decode(l, fixed, strings, |l.cols|))
    ensures FixedSoFar(l, Decode(l, fixed, strings, |l.cols|), |l.cols|, fixed)
  {
    hide ColumnAt, Held, FixedEnd, VarCount, Placed;
    forall c | 0 <= c < |l.cols|
      ensures var v := Decode(l, fixed, strings, |l.cols|)[c];
        v.kind == l.cols[c].kind && Sized(v) && (!v.kind.Str? ==> Held(l, fixed, c, v.bytes))
    {
      ColumnHeld(l, fixed, strings, c);
    }
    assert l.cols[..|l.cols|] == l.cols;
  }

  lemma InitialKinds(l: Layout, values: seq<Value>)
    requires Matches(l, values)
    ensures Kinds(l, Initial(l, values))
    ensures Initial(l, values)[..|values|] == values
  {
  }

  lemma NoneYet(l: Layout, vals: seq<Value>, part: seq<Byte>)
    ensures VarCount(l.cols[..0]) == 0 && FixedEnd(l.cols[..0]) == 0
    ensures VarSoFar(l, vals, 0, part, [])
  {
  }

  lemma NoNumbersYet(l: Layout, vals: seq<Value>)
    requires WellPlaced(l) && |vals| == |l.cols|
    ensures FixedSoFar(l, vals, 0, Zeros(l.fixedSize))
  {
    hide VarCount, Placed;
  }

  /** Only the first i values matter. */
  lemma VarPrefix(l: Layout, vals: seq<Value>, more: seq<Value>, i: nat, part: seq<Byte>, ends: seq<nat>)
    requires i <= |l.cols| && i <= |vals| && i <= |more| && vals[..i] == more[..i]
    requires VarSoFar(l, vals, i, part, ends)
    ensures VarSoFar(l, more, i, part, ends)
  {
    hide VarCount, Segment, Ascends;
    forall c | 0 <= c < i
      ensures vals[c] == more[c]
    {
      assert vals[..i][c] == more[..i][c];
    }
  }

  /** A hidden string is an empty segment after the others. */
  lemma VarHidden(l: Layout, vals: seq<Value>, i: nat, part: seq<Byte>, ends: seq<nat>)
    requires Placed(l.cols) && i < |l.cols| && i < |vals| && VarSoFar(l, vals, i, part, ends)
    requires l.cols[i].kind.Str? && vals[i].bytes == [] && |ends| > 0
    ensures VarSoFar(l, vals, i + 1, part, ends + [ends[|ends| - 1]])
  {
    hide VarCount, Placed;
    VarStep(l, vals, i, part, ends);
    assert Overwrite(part, Start(ends, |ends|), []) == part;
  }

  /** Hidden strings exist exactly when the layout counts one. */
  lemma HiddenCounted(l: Layout, i: nat)
    requires WellPlaced(l) && Visible(l) <= i < |l.cols| && l.cols[i].kind.Str?
    ensures l.hiddenVar > 0
  {
    hide VarCount, FixedEnd;
    Grows(l.cols, Visible(l), i);
    Next(l.cols, i);
    Grows(l.cols, i + 1, |l.cols|);
    assert l.cols[..|l.cols|] == l.cols;
  }

  /** With no hidden string, the visible strings are all of them. */
  lemma VarVisible(l: Layout, vals: seq<Value>, part: seq<Byte>, ends: seq<nat>)
    requires WellPlaced(l) && l.hiddenVar == 0 && |vals| == |l.cols|
    requires VarSoFar(l, vals, Visible(l), part, ends)
    ensures VarSoFar(l, vals, |l.cols|, part, ends)
  {
    hide VarCount, FixedEnd, Placed, Segment, Ascends;
    assert l.cols[..|l.cols|] == l.cols;
    forall c | Visible(l) <= c < |l.cols|
      ensures !l.cols[c].kind.Str?
    {
      if l.cols[c].kind.Str? {
        HiddenCounted(l, c);
      }
    }
  }

  /** Storage that holds every number and the visible strings of `vals`. */
  lemma CopyDecodes(l: Layout, vals: seq<Value>, fixed: seq<Byte>, part: seq<Byte>, ends: seq<nat>)
    requires Kinds(l, vals) && FixedSoFar(l, vals, |l.cols|, fixed)
    requires VarSoFar(l, vals, Visible(l), part, ends)
    ensures Ascends(ends, |part|) && |ends| == VarCount(l.cols[..Visible(l)])
    ensures Decode(l, fixed, Segments(part, ends), Visible(l)) == vals[..Visible(l)]
    ensures l.hiddenVar == 0 ==>
      && VarCount(l.cols[..|l.cols|]) <= |ends|
      && Decode(l, fixed, Segments(part, ends), |l.cols|) == vals
  {
    hide VarCount, FixedEnd, Placed, Segments, Decode, Held, Ascends;
    Decoded(l, vals, Visible(l), fixed, part, ends);
    if l.hiddenVar == 0 {
      VarVisible(l, vals, part, ends);
      Decoded(l, vals, |l.cols|, fixed, part, ends);
      assert vals[..|l.cols|] == vals;
    }
  }

  // ---- runs of one row

  /** A row's column is written, its strings are split up, or it is replaced by a copy. */
  datatype RowOp = Write(col: nat, value: Value) | Sparsen | Duplicate

  ghost predicate OpFits(l: Layout, op: RowOp) {
    match op
    case Write(c, v) => c < |l.cols| && v.kind == l.cols[c].kind && Sized(v)
    case Sparsen => true
    case Duplicate => l.hiddenVar == 0
  }

  ghost predicate OpsFit(l: Layout, ops: seq<RowOp>) {
    forall i :: 0 <= i < |ops| ==> OpFits(l, ops[i])
  }

  ghost function Done(vals: seq<Value>, op: RowOp): (r: seq<Value>)
    ensures |r| == |vals|
  {
    if op.Write? && op.col < |vals| then vals[op.col := op.value] else vals
  }

  ghost function AllDone(vals: seq<Value>, ops: seq<RowOp>): (r: seq<Value>)
    ensures |r| == |vals|
  {
    if ops == [] then vals else Done(AllDone(vals, ops[..|ops| - 1]), ops[|ops| - 1])
  }

  ghost predicate Writes(op: RowOp, c: nat) {
    op.Write? && op.col == c
  }

  /** Operation i is the last that writes column c. */
  ghost predicate LastWrite(ops: seq<RowOp>, c: nat, i: nat) {
    i < |ops| && Writes(ops[i], c) && forall j :: i < j < |ops| ==> !Writes(ops[j], c)
  }

  ghost predicate NeverWritten(ops: seq<RowOp>, c: nat) {
    forall j :: 0 <= j < |ops| ==> !Writes(ops[j], c)
  }

  /** Each column holds the value last written to it, or the one it began with. */
  ghost predicate LastValues(before: seq<Value>, ops: seq<RowOp>, after: seq<Value>) {
    && |after| == |before|
    && (forall c: nat, i: nat :: c < |after| && LastWrite(ops, c, i) ==> after[c] == ops[i].value)
    && (forall c: nat :: c < |after| && NeverWritten(ops, c) ==> after[c] == before[c])
  }

  lemma LastStep(ops: seq<RowOp>, c: nat, i: nat)
    requires ops != []
    ensures var n := |ops| - 1;
      && (LastWrite(ops, c, i) ==> if Writes(ops[n], c) then i == n else LastWrite(ops[..n], c, i))
      && (NeverWritten(ops, c) ==> !Writes(ops[n], c) && NeverWritten(ops[..n], c))
  {
    var n := |ops| - 1;
    assert forall j :: 0 <= j < n ==> ops[..n][j] == ops[j];
  }

  lemma {:induction false} LastWins(vals: seq<Value>, ops: seq<RowOp>)
    ensures LastValues(vals, ops, AllDone(vals, ops))
  {
    if ops != [] {
      var n := |ops| - 1;
      LastWins(vals, ops[..n]);
      forall c: nat, i: nat | c < |vals| && LastWrite(ops, c, i)
        ensures AllDone(vals, ops)[c] == ops[i].value
      {
        LastStep(ops, c, i);
      }
      forall c: nat | c < |vals| && NeverWritten(ops, c)
        ensures AllDone(vals, ops)[c] == vals[c]
      {
        LastStep(ops, c, 0);
      }
    }
  }
}
