/**
 * The vertices of a graph object with their fields, as one value: what the indexes list, and each vertex's data and
 * edge maps. The type of vertices is left open, so nothing here depends on the heap.
 */
module VertexStore {
  import opened UnionSpec

  datatype TxnInfo = TxnInfo(id: nat, status: Flags, servers: set<nat>)

  datatype Store<V(==)> = Store(
    vertexIndex: set<V>, idIndex: map<nat, V>,
    data: map<V, TxnInfo>, from: map<V, map<V, Flags>>, to: map<V, map<V, Flags>>)

  /** The two indexes list the same vertices. */
  ghost predicate Indexed<V>(s: Store<V>) {
    && s.data.Keys == s.from.Keys == s.to.Keys == s.vertexIndex
    && (forall a :: a in s.idIndex ==> s.idIndex[a] in s.vertexIndex && s.data[s.idIndex[a]].id == a)
    && (forall v {:trigger Listed(s.idIndex, s.data[v].id, v)} :: v in s.vertexIndex ==>
      Listed(s.idIndex, s.data[v].id, v))
  }

  ghost predicate Listed<V>(ids: map<nat, V>, a: nat, v: V) {
    a in ids && ids[a] == v
  }

  ghost predicate Paired<V>(to: map<V, Flags>, from: map<V, Flags>, v: V, u: V) {
    (u in to <==> v in from) && (u in to ==> to[u] == from[v])
  }

  /** Every edge stays inside the graph and is recorded at both of its ends, with the same relation. */
  ghost predicate Mirrored<V>(s: Store<V>)
    requires s.from.Keys == s.to.Keys == s.vertexIndex
  {
    && (forall v :: v in s.vertexIndex ==> s.to[v].Keys <= s.vertexIndex && s.from[v].Keys <= s.vertexIndex)
    && (forall v, u {:trigger Paired(s.to[v], s.from[u], v, u)} ::
      v in s.vertexIndex && u in s.vertexIndex ==> Paired(s.to[v], s.from[u], v, u))
  }

  ghost predicate Valid<V>(s: Store<V>) {
    Indexed(s) && Mirrored(s)
  }

  /** The outgoing edges of a vertex, with its neighbours named by id. */
  ghost function EdgesById<V>(ids: map<nat, V>, to: map<V, Flags>): map<nat, Flags> {
    map b | b in ids && ids[b] in to :: to[ids[b]]
  }

  ghost function Row<V>(s: Store<V>, a: nat): Node
    requires Indexed(s) && a in s.idIndex
  {
    var v := s.idIndex[a];
    Node(s.data[v].status, s.data[v].servers, EdgesById(s.idIndex, s.to[v]))
  }

  /** The graph of transaction ids that a store stands for. */
  ghost function Abs<V>(s: Store<V>): (g: TxnMap)
    requires Indexed(s)
    ensures g.Keys == s.idIndex.Keys
  {
    map a | a in s.idIndex :: Row(s, a)
  }

  /** Two stores whose rows differ at one id only. */
  lemma AbsUpdated<V>(s: Store<V>, s': Store<V>, b: nat, n: Node)
    requires Indexed(s) && Indexed(s') && s'.idIndex.Keys == s.idIndex.Keys + {b} && Row(s', b) == n
    requires forall a :: a in s.idIndex && a != b ==> Row(s', a) == Row(s, a)
    ensures Abs(s') == Abs(s)[b := n]
  {
    var g, g' := Abs(s), Abs(s');
    assert g'.Keys == g.Keys + {b};
    forall a | a in g'
      ensures g'[a] == g[b := n][a]
    {
      assert g'[a] == Row(s', a);
      assert a != b ==> g[a] == Row(s, a);
    }
  }

  function NodeOf(d: TxnInfo): Node {
    Node(d.status, d.servers, map[])
  }

  function Get<V>(m: map<V, Flags>, v: V): Flags {
    if v in m then m[v] else NONE
  }

  function Inserted<V>(s: Store<V>, v: V, d: TxnInfo): Store<V> {
    Store(s.vertexIndex + {v}, s.idIndex[d.id := v], s.data[v := d], s.from[v := map[]], s.to[v := map[]])
  }

  lemma InsertedIndexed<V>(s: Store<V>, v: V, d: TxnInfo)
    requires Indexed(s) && v !in s.vertexIndex && d.id !in s.idIndex
    ensures Indexed(Inserted(s, v, d))
  {
    var s' := Inserted(s, v, d);
    assert s'.data.Keys == s'.from.Keys == s'.to.Keys == s'.vertexIndex;
    forall x | x in s'.vertexIndex
      ensures Listed(s'.idIndex, s'.data[x].id, x)
    {
      assert x != v ==> Listed(s.idIndex, s.data[x].id, x);
    }
  }

  lemma InsertedMirrored<V>(s: Store<V>, v: V, d: TxnInfo)
    requires s.from.Keys == s.to.Keys == s.vertexIndex && Mirrored(s) && v !in s.vertexIndex
    ensures Inserted(s, v, d).from.Keys == Inserted(s, v, d).to.Keys == Inserted(s, v, d).vertexIndex
    ensures Mirrored(Inserted(s, v, d))
  {
    var s' := Inserted(s, v, d);
    assert s'.from.Keys == s'.to.Keys == s'.vertexIndex;
    forall x | x in s'.vertexIndex
      ensures s'.to[x].Keys <= s'.vertexIndex && s'.from[x].Keys <= s'.vertexIndex
    {
      assert x != v ==> s.to[x].Keys <= s.vertexIndex && s.from[x].Keys <= s.vertexIndex;
    }
    forall x, y | x in s'.vertexIndex && y in s'.vertexIndex
      ensures Paired(s'.to[x], s'.from[y], x, y)
    {
      assert x != v && y != v ==> Paired(s.to[x], s.from[y], x, y);
    }
  }

  lemma InsertedRow<V>(s: Store<V>, v: V, d: TxnInfo, a: nat)
    requires Valid(s) && v !in s.vertexIndex && d.id !in s.idIndex && Indexed(Inserted(s, v, d)) && a in s.idIndex
    ensures Row(Inserted(s, v, d), a) == Row(s, a)
  {
    var x := s.idIndex[a];
    assert x != v && s.to[x].Keys <= s.vertexIndex;
    InsertedEdges(s.idIndex, s.to[x], d.id, v);
  }

  lemma InsertedAbs<V>(s: Store<V>, v: V, d: TxnInfo)
    requires Valid(s) && v !in s.vertexIndex && d.id !in s.idIndex && Indexed(Inserted(s, v, d))
    ensures Abs(Inserted(s, v, d)) == Abs(s)[d.id := NodeOf(d)]
  {
    var s' := Inserted(s, v, d);
    forall a | a in s.idIndex && a != d.id
      ensures Row(s', a) == Row(s, a)
    {
      InsertedRow(s, v, d, a);
    }
    InsertedEdges(s.idIndex, map[], d.id, v);
    AbsUpdated(s, s', d.id, NodeOf(d));
  }

  lemma InsertedOk<V>(s: Store<V>, v: V, d: TxnInfo)
    requires Valid(s) && v !in s.vertexIndex && d.id !in s.idIndex
    ensures Valid(Inserted(s, v, d)) && Abs(Inserted(s, v, d)) == Abs(s)[d.id := NodeOf(d)]
  {
    hide Abs, Inserted;
    InsertedIndexed(s, v, d);
    InsertedMirrored(s, v, d);
    InsertedAbs(s, v, d);
  }

  lemma FoundOk<V>(s: Store<V>, a: nat)
    requires Valid(s) && a in s.idIndex
    ensures s.idIndex[a] in s.vertexIndex && s.idIndex[a] in s.data && s.data[s.idIndex[a]].id == a
  {
  }

  lemma InsertedEdges<V>(ids: map<nat, V>, to: map<V, Flags>, b: nat, v: V)
    requires b !in ids && v !in to
    ensures EdgesById(ids[b := v], to) == EdgesById(ids, to)
  {
    assert forall c :: c in EdgesById(ids[b := v], to) <==> c in EdgesById(ids, to);
  }

  function MergedInfo(own: nat, isServer: bool, mine: TxnInfo, other: TxnInfo): TxnInfo {
    var servers := mine.servers + other.servers;
    TxnInfo(mine.id, MergeStatus(own, isServer, mine.status, servers, other.status), servers)
  }

  function Redata<V>(s: Store<V>, v: V, d: TxnInfo): Store<V> {
    s.(data := s.data[v := d])
  }

  lemma RedataValid<V>(s: Store<V>, v: V, d: TxnInfo)
    requires Valid(s) && v in s.vertexIndex && s.data[v].id == d.id
    ensures Valid(Redata(s, v, d))
  {
    assert forall x, y :: x in s.vertexIndex && y in s.vertexIndex ==> Paired(s.to[x], s.from[y], x, y);
  }

  lemma RedataAbs<V>(s: Store<V>, v: V, d: TxnInfo)
    requires Indexed(s) && v in s.vertexIndex && s.data[v].id == d.id && Indexed(Redata(s, v, d))
    requires Listed(s.idIndex, d.id, v)
    ensures Abs(Redata(s, v, d)) == Abs(s)[d.id := Abs(s)[d.id].(status := d.status, servers := d.servers)]
  {
    var s' := Redata(s, v, d);
    forall a | a in s.idIndex && a != d.id
      ensures Row(s', a) == Row(s, a)
    {
      assert s.idIndex[a] != v;
    }
    AbsUpdated(s, s', d.id, Row(s, d.id).(status := d.status, servers := d.servers));
  }

  function Linked<V>(s: Store<V>, v: V, u: V, bits: Flags): Store<V>
    requires v in s.to && u in s.from
  {
    s.(to := s.to[v := s.to[v][u := bits]], from := s.from[u := s.from[u][v := bits]])
  }

  /** The bits both ends agree on after the relation is added. */
  function NewBits<V>(s: Store<V>, v: V, u: V, relation: Flags): Flags
    requires v in s.to
  {
    Or(Get(s.to[v], u), relation)
  }

  lemma LinkedValid<V>(s: Store<V>, v: V, u: V, bits: Flags)
    requires Valid(s) && v in s.vertexIndex && u in s.vertexIndex
    ensures Valid(Linked(s, v, u, bits))
  {
    var s' := Linked(s, v, u, bits);
    forall x, y | x in s'.vertexIndex && y in s'.vertexIndex
      ensures Paired(s'.to[x], s'.from[y], x, y)
    {
      assert Paired(s.to[x], s.from[y], x, y);
    }
  }

  lemma LinkedAbs<V>(s: Store<V>, v: V, u: V, bits: Flags)
    requires Indexed(s) && v in s.vertexIndex && u in s.vertexIndex && Indexed(Linked(s, v, u, bits))
    requires Listed(s.idIndex, s.data[v].id, v) && Listed(s.idIndex, s.data[u].id, u)
    ensures Abs(Linked(s, v, u, bits)) == AddTo(Abs(s), s.data[v].id, s.data[u].id, bits)
  {
    var s' := Linked(s, v, u, bits);
    var a, b := s.data[v].id, s.data[u].id;
    assert Listed(s.idIndex, a, v) && Listed(s.idIndex, b, u);
    LinkedEdges(s.idIndex, s.to[v], u, b, bits);
    forall c | c in s.idIndex && c != a
      ensures Row(s', c) == Row(s, c)
    {
      assert s.idIndex[c] != v;
    }
    AbsUpdated(s, s', a, Row(s, a).(to := Row(s, a).to[b := bits]));
  }

  lemma OrAbs<V>(s: Store<V>, v: V, u: V, relation: Flags)
    requires Indexed(s) && v in s.vertexIndex && u in s.vertexIndex
    requires Listed(s.idIndex, s.data[v].id, v) && Listed(s.idIndex, s.data[u].id, u)
    ensures AddTo(Abs(s), s.data[v].id, s.data[u].id, NewBits(s, v, u, relation)) ==
            OrEdge(Abs(s), s.data[v].id, s.data[u].id, relation)
  {
    LinkedEdges(s.idIndex, s.to[v], u, s.data[u].id, relation);
  }

  lemma LinkedEdges<V>(ids: map<nat, V>, to: map<V, Flags>, u: V, b: nat, bits: Flags)
    requires b in ids && ids[b] == u && forall c :: c in ids && ids[c] == u ==> c == b
    ensures EdgesById(ids, to[u := bits]) == EdgesById(ids, to)[b := bits]
    ensures Bits(EdgesById(ids, to), b) == Get(to, u)
  {
    var l, r := EdgesById(ids, to[u := bits]), EdgesById(ids, to)[b := bits];
    assert forall c :: c in l <==> c in r;
    assert forall c :: c in l ==> l[c] == r[c];
  }
}
