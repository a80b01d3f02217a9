/** Reading a dependency graph back from a stream, and the round trip with the writers. */
module Unmarshal {
  import opened UnionSpec
  import opened VertexStore
  import opened Seqs
  import opened Marshal

  /** What a reader got and what is left of the stream, or a stream it cannot read. */
  datatype Read<T> = Fail | Got(value: T, rest: seq<Token>)

  predicate NumAhead(m: seq<Token>) {
    |m| > 0 && m[0].Num?
  }

  predicate PairAhead(m: seq<Token>) {
    |m| > 1 && m[0].Num? && m[1].Byte?
  }

  predicate HeadAhead(m: seq<Token>) {
    |m| > 3 && m[0].Num? && m[1].Num? && m[2].Byte? && m[3].Num?
  }

  function ReadServers(k: nat, m: seq<Token>, acc: set<nat>): Read<set<nat>> {
    if k == 0 then Got(acc, m)
    else if !NumAhead(m) then Fail
    else ReadServers(k - 1, m[1..], acc + {m[0].n})
  }

  function ReadEnds(k: nat, m: seq<Token>, acc: map<nat, Flags>): Read<map<nat, Flags>> {
    if k == 0 then Got(acc, m)
    else if !PairAhead(m) then Fail
    else ReadEnds(k - 1, m[2..], acc[m[0].n := Or(Bits(acc, m[0].n), m[1].flags)])
  }

  /** The vertices read so far, with their outgoing edges by id. */
  datatype Raw = Raw(ref: map<nat, TxnInfo>, vTo: map<nat, map<nat, Flags>>)

  function RawTo(raw: Raw, o: nat): map<nat, Flags> {
    if o in raw.vTo then raw.vTo[o] else map[]
  }

  function PutRaw(raw: Raw, o: nat, info: TxnInfo, k: nat, ends: map<nat, Flags>): Raw {
    Raw(raw.ref[o := info], if k == 0 then raw.vTo else raw.vTo[o := ends])
  }

  function ReadVertex(m: seq<Token>, raw: Raw): Read<Raw> {
    if !HeadAhead(m) then Fail
    else
      var o, status := m[0].n, m[2].flags;
      match ReadServers(m[3].n, m[4..], {})
      case Fail => Fail
      case Got(servers, m') =>
        if !NumAhead(m') then Fail
        else
          match ReadEnds(m'[0].n, m'[1..], RawTo(raw, o))
          case Fail => Fail
          case Got(ends, rest) => Got(PutRaw(raw, o, TxnInfo(m[1].n, Or(NONE, status), servers), m'[0].n, ends), rest)
  }

  function ReadVertices(n: nat, m: seq<Token>, raw: Raw): Read<Raw> {
    if n == 0 then Got(raw, m)
    else
      match ReadVertex(m, raw)
      case Fail => Fail
      case Got(raw', rest) => ReadVertices(n - 1, rest, raw')
  }

  /**
   * A graph as it stands after reading: each vertex's record and both of its edge maps, by the id it was sent under.
   */
  datatype GraphData = GraphData(
    data: map<nat, TxnInfo>, to: map<nat, map<nat, Flags>>, from: map<nat, map<nat, Flags>>)

  /** Every edge read leads to a vertex that was read. */
  ghost predicate NoDangling(raw: Raw) {
    forall o, b :: o in raw.ref && b in RawTo(raw, o) ==> b in raw.ref
  }

  /** The edges turned around. */
  function Transpose(to: map<nat, map<nat, Flags>>): map<nat, map<nat, Flags>> {
    map b | b in to :: map a | a in to && b in to[a] :: to[a][b]
  }

  function AllTo(raw: Raw): map<nat, map<nat, Flags>> {
    map o | o in raw.ref :: RawTo(raw, o)
  }

  function Linked(raw: Raw): GraphData {
    GraphData(raw.ref, AllTo(raw), Transpose(AllTo(raw)))
  }

  ghost function ReadGraph(m: seq<Token>): Read<GraphData> {
    if !NumAhead(m) || m[0].n == 0 then Fail
    else
      match ReadVertices(m[0].n, m[1..], Raw(map[], map[]))
      case Fail => Fail
      case Got(raw, rest) => if |raw.ref| == m[0].n && NoDangling(raw) then Got(Linked(raw), rest) else Fail
  }

  method TakeServers(k: nat, m: seq<Token>) returns (r: Read<set<nat>>)
    ensures r == ReadServers(k, m, {})
  {
    var acc: set<nat>, rest := {}, m;
    for i := 0 to k
      invariant ReadServers(k - i, rest, acc) == ReadServers(k, m, {})
    {
      if !NumAhead(rest) {
        return Fail;
      }
      acc, rest := acc + {rest[0].n}, rest[1..];
    }
    r := Got(acc, rest);
  }

  /** The inner loop: the bits of an edge that is sent twice add up. */
  method TakeEnds(k: nat, m: seq<Token>, acc: map<nat, Flags>) returns (r: Read<map<nat, Flags>>)
    ensures r == ReadEnds(k, m, acc)
  {
    var to: map<nat, Flags>, rest := acc, m;
    for i := 0 to k
      invariant ReadEnds(k - i, rest, to) == ReadEnds(k, m, acc)
    {
      if !PairAhead(rest) {
        return Fail;
      }
      to, rest := to[rest[0].n := Or(Bits(to, rest[0].n), rest[1].flags)], rest[2..];
    }
    r := Got(to, rest);
  }

  method TakeVertex(m: seq<Token>, raw: Raw) returns (r: Read<Raw>)
    ensures r == ReadVertex(m, raw)
  {
    if !HeadAhead(m) {
      return Fail;
    }
    var o := m[0].n;
    var servers := TakeServers(m[3].n, m[4..]);
    if servers.Fail? || !NumAhead(servers.rest) {
      return Fail;
    }
    var k := servers.rest[0].n;
    var ends := TakeEnds(k, servers.rest[1..], RawTo(raw, o));
    if ends.Fail? {
      return Fail;
    }
    var info := TxnInfo(m[1].n, Or(NONE, m[2].flags), servers.value);
    r := Got(PutRaw(raw, o, info, k, ends.value), ends.rest);
  }

  method TakeVertices(n: nat, m: seq<Token>) returns (r: Read<Raw>)
    ensures r == ReadVertices(n, m, Raw(map[], map[]))
  {
    hide ReadVertex;
    r := Got(Raw(map[], map[]), m);
    for i := 0 to n
      invariant r.Got? && ReadVertices(n - i, r.rest, r.value) == ReadVertices(n, m, Raw(map[], map[]))
    {
      r := TakeVertex(r.rest, r.value);
      if r.Fail? {
        return;
      }
    }
  }

  /** The far ends of the edges `to` of `o` have learned of them. */
  function Learned(o: nat, to: map<nat, Flags>, from: map<nat, map<nat, Flags>>): (r: map<nat, map<nat, Flags>>)
    ensures r.Keys == from.Keys
  {
    map b | b in from :: if b in to then from[b][o := to[b]] else from[b]
  }

  /** `to_v->from_[v] = type` for all edges of one vertex; fails at an edge to a vertex that was not read. */
  method LinkVertex(o: nat, to: map<nat, Flags>, from: map<nat, map<nat, Flags>>)
      returns (ok: bool, from': map<nat, map<nat, Flags>>)
    ensures ok <==> to.Keys <= from.Keys
    ensures ok ==> from' == Learned(o, to, from)
  {
    from' := from;
    var todo := to.Keys;
    while todo != {}
      invariant todo <= to.Keys && to.Keys - todo <= from.Keys
      invariant from' == map b | b in from :: if b in to && b !in todo then from[b][o := to[b]] else from[b]
    {
      var b :| b in todo;
      if b !in from {
        return false, from';
      }
      var into: map<nat, Flags> := from'[b][o := to[b]];
      from' := from'[b := into];
      todo := todo - {b};
    }
    ok := true;
  }

  /** The last loop of `>>`: each vertex takes its outgoing edges, and their far ends learn of them. */
  method LinkAll(raw: Raw) returns (r: Read<GraphData>)
    ensures r.Got? <==> NoDangling(raw)
    ensures r.Got? ==> r.value == Linked(raw) && r.rest == []
  {
    var none: map<nat, Flags> := map[];
    var to, from := map a | a in raw.ref :: none, map b | b in raw.ref :: none;
    var todo := raw.ref.Keys;
    LinkedNone(raw, to, from);
    assert InsideUpTo(raw, todo);
    hide *;
    while todo != {}
      invariant todo <= raw.ref.Keys && from.Keys == raw.ref.Keys && LinkedUpTo(raw, to, from, todo)
      invariant InsideUpTo(raw, todo)
    {
      var o :| o in todo;
      var ok, from' := LinkVertex(o, RawTo(raw, o), from);
      if !ok {
        Dangling(raw, o);
        return Fail;
      }
      InsideStep(raw, todo, o);
      LinkedStep(raw, to, from, todo, o);
      to, from, todo := to[o := RawTo(raw, o)], from', todo - {o};
    }
    AllInside(raw);
    LinkedDone(raw, to, from);
    r := Got(GraphData(raw.ref, to, from), []);
  }

  lemma Dangling(raw: Raw, o: nat)
    requires o in raw.ref && !(RawTo(raw, o).Keys <= raw.ref.Keys)
    ensures !NoDangling(raw)
  {
    var b :| b in RawTo(raw, o).Keys && b !in raw.ref;
  }

  ghost predicate InsideUpTo(raw: Raw, todo: set<nat>) {
    forall o :: o in raw.ref && o !in todo ==> RawTo(raw, o).Keys <= raw.ref.Keys
  }

  lemma InsideStep(raw: Raw, todo: set<nat>, o: nat)
    requires InsideUpTo(raw, todo) && RawTo(raw, o).Keys <= raw.ref.Keys
    ensures InsideUpTo(raw, todo - {o})
  {
  }

  lemma AllInside(raw: Raw)
    requires InsideUpTo(raw, {})
    ensures NoDangling(raw)
  {
  }

  /** The edges of all vertices but those in `todo` are recorded at both ends. */
  ghost predicate LinkedUpTo(raw: Raw, to: map<nat, map<nat, Flags>>, from: map<nat, map<nat, Flags>>, todo: set<nat>) {
    && to.Keys == from.Keys == raw.ref.Keys
    && (forall o :: o in to ==> to[o] == if o in todo then map[] else RawTo(raw, o))
    && (forall b :: b in from ==> from[b] == Incoming(raw, b, todo))
  }

  lemma LinkedNone(raw: Raw, to: map<nat, map<nat, Flags>>, from: map<nat, map<nat, Flags>>)
    requires to.Keys == from.Keys == raw.ref.Keys && forall b :: b in raw.ref ==> to[b] == map[] && from[b] == map[]
    ensures LinkedUpTo(raw, to, from, raw.ref.Keys)
  {
    assert forall b :: b in from ==> Incoming(raw, b, raw.ref.Keys) == map[];
  }

  lemma LinkedStep(raw: Raw, to: map<nat, map<nat, Flags>>, from: map<nat, map<nat, Flags>>, todo: set<nat>, o: nat)
    requires LinkedUpTo(raw, to, from, todo) && o in todo && o in raw.ref
    ensures LinkedUpTo(raw, to[o := RawTo(raw, o)], Learned(o, RawTo(raw, o), from), todo - {o})
  {
    hide Incoming, RawTo, Learned;
    var from' := Learned(o, RawTo(raw, o), from);
    forall b | b in from'
      ensures from'[b] == Incoming(raw, b, todo - {o})
    {
      LearnedAt(raw, from, todo, o, b);
    }
  }

  lemma LearnedAt(raw: Raw, from: map<nat, map<nat, Flags>>, todo: set<nat>, o: nat, b: nat)
    requires b in from && from[b] == Incoming(raw, b, todo) && o in todo && o in raw.ref
    ensures b in Learned(o, RawTo(raw, o), from) && Learned(o, RawTo(raw, o), from)[b] == Incoming(raw, b, todo - {o})
  {
  }

  lemma LinkedDone(raw: Raw, to: map<nat, map<nat, Flags>>, from: map<nat, map<nat, Flags>>)
    requires LinkedUpTo(raw, to, from, {})
    ensures GraphData(raw.ref, to, from) == Linked(raw)
  {
    assert to == AllTo(raw);
    forall b | b in from
      ensures from[b] == Transpose(to)[b]
    {
      assert from[b] == Incoming(raw, b, {});
    }
  }

  /** The incoming edges of `b` from the vertices that are done. */
  ghost function Incoming(raw: Raw, b: nat, todo: set<nat>): map<nat, Flags> {
    map o | o in raw.ref && o !in todo && b in RawTo(raw, o) :: RawTo(raw, o)[b]
  }

  /** The whole of `>>`; a stream it cannot read, a repeated vertex or an edge into nowhere stops it. */
  method TakeGraph(m: seq<Token>) returns (r: Read<GraphData>)
    ensures r == ReadGraph(m)
  {
    if !NumAhead(m) || m[0].n == 0 {
      return Fail;
    }
    var raw := TakeVertices(m[0].n, m[1..]);
    if raw.Fail? || |raw.value.ref| != m[0].n {
      return Fail;
    }
    var g := LinkAll(raw.value);
    r := if g.Fail? then Fail else Got(g.value, raw.rest);
  }

  ghost predicate MirroredData(d: GraphData) {
    && d.to.Keys == d.from.Keys == d.data.Keys
    && (forall a :: a in d.data ==> d.to[a].Keys <= d.data.Keys && d.from[a].Keys <= d.data.Keys)
    && forall a, b :: a in d.data && b in d.data ==> Paired(d.to[a], d.from[b], a, b)
  }

  /** Whatever stream is accepted, even one no writer makes, the edges that come out are mirrored. */
  lemma ReadMirrored(m: seq<Token>)
    requires ReadGraph(m).Got?
    ensures MirroredData(ReadGraph(m).value)
  {
    var raw := ReadVertices(m[0].n, m[1..], Raw(map[], map[])).value;
    var d := Linked(raw);
    forall a | a in d.data
      ensures d.to[a].Keys <= d.data.Keys && d.from[a].Keys <= d.data.Keys
    {
      assert forall b :: b in RawTo(raw, a) ==> b in raw.ref;
    }
  }

  lemma {:induction false} ReadNums(s: seq<nat>, rest: seq<Token>, acc: set<nat>)
    ensures ReadServers(|s|, Nums(s) + rest, acc) == Got(acc + Elems(s), rest)
  {
    if s == [] {
      assert acc + Elems(s) == acc && Nums(s) + rest == rest;
    } else {
      var m := Nums(s) + rest;
      assert m[1..] == Nums(s[1..]) + rest && m[0] == Num(s[0]);
      ReadNums(s[1..], rest, acc + {s[0]});
      assert s == [s[0]] + s[1..];
      assert acc + {s[0]} + Elems(s[1..]) == acc + Elems(s);
    }
  }

  lemma {:induction false} PairsFront(s: seq<(nat, Flags)>)
    requires s != []
    ensures Pairs(s) == [Num(s[0].0), Byte(s[0].1)] + Pairs(s[1..])
  {
    if |s| > 1 {
      var init := s[..|s| - 1];
      PairsFront(init);
      assert init[1..] == s[1..][..|s| - 2];
    } else {
      assert s[..0] == [] == s[1..];
    }
  }

  /** The edge map after the remaining edges are read into `acc`. */
  ghost function Taken(s: seq<(nat, Flags)>, acc: map<nat, Flags>): map<nat, Flags> {
    if s == [] then acc else Taken(s[1..], acc[s[0].0 := Or(Bits(acc, s[0].0), s[0].1)])
  }

  lemma {:induction false} ReadPairs(s: seq<(nat, Flags)>, rest: seq<Token>, acc: map<nat, Flags>)
    ensures ReadEnds(|s|, Pairs(s) + rest, acc) == Got(Taken(s, acc), rest)
  {
    if s == [] {
      assert Pairs(s) + rest == rest;
    } else {
      PairsFront(s);
      var m := Pairs(s) + rest;
      assert m[2..] == Pairs(s[1..]) + rest;
      ReadPairs(s[1..], rest, acc[s[0].0 := Or(Bits(acc, s[0].0), s[0].1)]);
    }
  }

  ghost predicate Part(m: map<nat, Flags>, to: map<nat, Flags>) {
    forall b :: b in m ==> b in to && m[b] == to[b]
  }

  lemma EndsFront(s: seq<(nat, Flags)>)
    requires s != [] && NoDup(EndIds(s))
    ensures EndIds(s) == [s[0].0] + EndIds(s[1..]) && NoDup(EndIds(s[1..]))
    ensures forall i :: 0 <= i < |s[1..]| ==> s[1..][i].0 != s[0].0
  {
    var ids := EndIds(s);
    assert ids[0] == s[0].0;
    assert forall i :: 0 <= i < |s[1..]| ==> EndIds(s[1..])[i] == s[1..][i].0 == ids[i + 1] != ids[0];
  }

  ghost predicate Agree(s: seq<(nat, Flags)>, acc: map<nat, Flags>, to: map<nat, Flags>) {
    forall i :: 0 <= i < |s| ==> s[i].0 !in acc && s[i].0 in to && s[i].1 == to[s[i].0]
  }

  lemma AgreeRest(s: seq<(nat, Flags)>, acc: map<nat, Flags>, to: map<nat, Flags>)
    requires s != [] && Agree(s, acc, to) && Part(acc, to)
    requires forall i :: 0 <= i < |s[1..]| ==> s[1..][i].0 != s[0].0
    ensures var acc' := acc[s[0].0 := s[0].1]; Agree(s[1..], acc', to) && Part(acc', to)
  {
    assert forall i :: 0 <= i < |s[1..]| ==> s[1..][i] == s[i + 1];
  }

  /** Distinct far ends not met before keep the relation they were sent with. */
  lemma {:induction false} TakenDistinct(s: seq<(nat, Flags)>, acc: map<nat, Flags>, to: map<nat, Flags>)
    requires NoDup(EndIds(s)) && Agree(s, acc, to) && Part(acc, to)
    ensures Part(Taken(s, acc), to)
    ensures forall b :: b in Taken(s, acc) <==> b in acc || b in EndIds(s)
  {
    hide NoDup, EndIds, Part, Or;
    if s == [] {
      assert EndIds(s) == [] by { NoEnds(); }
    } else {
      EndsFront(s);
      OrLaws(s[0].1, NONE, NONE);
      AgreeRest(s, acc, to);
      TakenDistinct(s[1..], acc[s[0].0 := s[0].1], to);
    }
  }

  lemma NoEnds()
    ensures EndIds([]) == []
  {
  }

  lemma ReadTo(ends: seq<(nat, Flags)>, to: map<nat, Flags>)
    requires EndsOf(ends, to)
    ensures Taken(ends, map[]) == to
  {
    TakenDistinct(ends, map[], to);
    assert forall b :: b in to ==> b in Elems(EndIds(ends));
  }

  ghost function InfoOf(h: TxnMap, a: nat): TxnInfo
    requires a in h
  {
    TxnInfo(a, h[a].status, h[a].servers)
  }

  /** One vertex, read where its entry was written. */
  lemma ReadEntry(e: Entry, h: TxnMap, raw: Raw, rest: seq<Token>)
    requires EntryOf(e, h) && RawTo(raw, e.id) == map[]
    ensures ReadVertex(EntryTokens(e) + rest, raw) ==
      Got(PutRaw(raw, e.id, InfoOf(h, e.id), |e.ends|, h[e.id].to), rest)
  {
    hide Nums, Pairs, Taken, ReadServers, ReadEnds, EndsOf, PutRaw;
    var m := EntryTokens(e) + rest;
    var tail := [Num(|e.ends|)] + Pairs(e.ends) + rest;
    assert m[4..] == Nums(e.servers) + tail;
    ReadNums(e.servers, tail, {});
    assert {} + Elems(e.servers) == h[e.id].servers;
    assert tail[1..] == Pairs(e.ends) + rest;
    ReadPairs(e.ends, rest, map[]);
    ReadTo(e.ends, h[e.id].to);
    OrLaws(e.status, NONE, NONE);
  }

  lemma {:induction false} EntriesFront(es: seq<Entry>)
    requires es != []
    ensures EntriesTokens(es) == EntryTokens(es[0]) + EntriesTokens(es[1..])
  {
    hide EntryTokens;
    if |es| > 1 {
      var init := es[..|es| - 1];
      EntriesFront(init);
      assert init[1..] == es[1..][..|es| - 2];
    } else {
      assert es[..0] == [] == es[1..];
    }
  }

  /** What is in `raw` is what `h` says about the vertices `done`. */
  ghost predicate RawOf(raw: Raw, done: set<nat>, h: TxnMap) {
    && raw.ref.Keys == done <= h.Keys && raw.vTo.Keys <= done
    && forall a :: a in done ==> raw.ref[a] == InfoOf(h, a) && RawTo(raw, a) == h[a].to
  }

  lemma {:induction false} ReadEntries(es: seq<Entry>, h: TxnMap, raw: Raw, done: set<nat>, rest: seq<Token>)
    requires RawOf(raw, done, h) && NoDup(EntryIds(es))
    requires forall i :: 0 <= i < |es| ==> EntryOf(es[i], h) && es[i].id !in done
    ensures exists raw' ::
      RawOf(raw', done + Elems(EntryIds(es)), h) && ReadVertices(|es|, EntriesTokens(es) + rest, raw) == Got(raw', rest)
  {
    hide EntryTokens, ReadVertex, PutRaw, RawOf, NoDup;
    if es == [] {
      assert EntriesTokens(es) + rest == rest && done + Elems(EntryIds(es)) == done;
    } else {
      var e, es' := es[0], es[1..];
      EntriesFront(es);
      assert EntriesTokens(es) + rest == EntryTokens(e) + (EntriesTokens(es') + rest);
      assert e.id !in raw.vTo by { NotRead(raw, done, h, e.id); }
      ReadEntry(e, h, raw, EntriesTokens(es') + rest);
      var raw' := PutRaw(raw, e.id, InfoOf(h, e.id), |e.ends|, h[e.id].to);
      RawPut(e, h, raw, done);
      IdsFront(es);
      ReadEntries(es', h, raw', done + {e.id}, rest);
      assert done + {e.id} + Elems(EntryIds(es')) == done + Elems(EntryIds(es));
    }
  }

  lemma NotRead(raw: Raw, done: set<nat>, h: TxnMap, a: nat)
    requires RawOf(raw, done, h) && a !in done
    ensures a !in raw.vTo && a !in raw.ref
  {
  }

  lemma RawPut(e: Entry, h: TxnMap, raw: Raw, done: set<nat>)
    requires RawOf(raw, done, h) && EntryOf(e, h) && e.id !in done
    ensures RawOf(PutRaw(raw, e.id, InfoOf(h, e.id), |e.ends|, h[e.id].to), done + {e.id}, h)
  {
    if |e.ends| == 0 {
      assert EndIds(e.ends) == [] && h[e.id].to.Keys == {};
      assert h[e.id].to == map[];
    }
    var raw' := PutRaw(raw, e.id, InfoOf(h, e.id), |e.ends|, h[e.id].to);
    assert forall a :: a in done ==> RawTo(raw', a) == RawTo(raw, a);
  }

  lemma NoDupFront<T>(l: seq<T>, x: T, r: seq<T>)
    requires NoDup(l) && l == [x] + r
    ensures NoDup(r) && x !in r && Elems(l) == {x} + Elems(r)
  {
    assert forall i :: 0 <= i < |r| ==> r[i] == l[i + 1] && l[i + 1] != l[0];
    assert forall y :: y in l <==> y == x || y in r;
  }

  lemma IdsFront(es: seq<Entry>)
    requires es != [] && NoDup(EntryIds(es))
    ensures NoDup(EntryIds(es[1..])) && Elems(EntryIds(es)) == {es[0].id} + Elems(EntryIds(es[1..]))
    ensures forall i :: 0 <= i < |es| - 1 ==> es[1..][i].id != es[0].id
  {
    var l, r := EntryIds(es), EntryIds(es[1..]);
    NoDupFront(l, es[0].id, r);
    forall i | 0 <= i < |es| - 1
      ensures es[1..][i].id != es[0].id
    {
      assert r[i] == es[1..][i].id && r[i] in r;
    }
  }

  /** The graph `h` with both edge directions. */
  ghost function DataOf(h: TxnMap): GraphData {
    var to := map a | a in h :: h[a].to;
    GraphData(map a | a in h :: InfoOf(h, a), to, Transpose(to))
  }

  lemma LinkedOf(raw: Raw, h: TxnMap)
    requires RawOf(raw, h.Keys, h)
    ensures Linked(raw) == DataOf(h) && |raw.ref| == |h| && (Closed(h) ==> NoDangling(raw))
  {
    hide Transpose;
    assert raw.ref == DataOf(h).data;
    assert AllTo(raw) == DataOf(h).to;
    assert |raw.ref.Keys| == |h.Keys|;
  }

  /** Any stream that describes a closed, non-empty graph reads back as that graph, and nothing after it is touched. */
  lemma RoundTrip(m: seq<Token>, h: TxnMap, rest: seq<Token>)
    requires Encodes(m, h) && Closed(h)
    ensures ReadGraph(m + rest) == if h == map[] then Fail else Got(DataOf(h), rest)
  {
    hide EntriesOf, EntriesTokens, ReadVertices, RawOf, NoDangling, Linked, DataOf, Closed;
    var es :| EntriesOf(es, h.Keys, h) && m == [Num(|h|)] + EntriesTokens(es);
    assert |h.Keys| == |h|;
    assert (m + rest)[1..] == EntriesTokens(es) + rest;
    if h != map[] {
      assert |h.Keys| > 0;
      var raw := ReadAll(es, h, rest);
      LinkedOf(raw, h);
    }
  }

  lemma ReadAll(es: seq<Entry>, h: TxnMap, rest: seq<Token>) returns (raw: Raw)
    requires EntriesOf(es, h.Keys, h)
    ensures RawOf(raw, h.Keys, h) && ReadVertices(|h|, EntriesTokens(es) + rest, Raw(map[], map[])) == Got(raw, rest)
  {
    hide EntriesTokens, ReadVertices, EntryOf;
    ListsSize(EntryIds(es), h.Keys);
    ReadEntries(es, h, Raw(map[], map[]), {}, rest);
    assert {} + Elems(EntryIds(es)) == h.Keys && |h.Keys| == |h|;
    raw :| RawOf(raw, h.Keys, h) && ReadVertices(|es|, EntriesTokens(es) + rest, Raw(map[], map[])) == Got(raw, rest);
  }

  /** An induced subgraph is closed, so sending a selection of vertices always arrives whole, and mirrored. */
  lemma SelectionRoundTrip(g: TxnMap, retSet: set<nat>, m: seq<Token>, rest: seq<Token>)
    requires retSet <= g.Keys && retSet != {} && Encodes(m, Induced(g, retSet))
    ensures ReadGraph(m + rest) == Got(DataOf(Induced(g, retSet)), rest)
    ensures MirroredData(DataOf(Induced(g, retSet)))
    ensures forall a :: a in retSet ==> PartOf(Induced(g, retSet)[a], g[a], retSet)
  {
    hide Encodes, ReadGraph, DataOf, MirroredData, PartOf;
    InducedParts(g, retSet);
    assert Induced(g, retSet) != map[];
    RoundTrip(m, Induced(g, retSet), rest);
    ReadMirrored(m + rest);
  }
}
