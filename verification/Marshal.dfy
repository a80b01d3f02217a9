/**
 * The wire form of a dependency graph: a stream of numbers and flag bytes, written vertex by vertex and read back into
 * a graph with both edge directions.
 */
module Marshal {
  import opened UnionSpec
  import opened Seqs

  datatype Token = Num(n: nat) | Byte(flags: Flags)

  /** One vertex as it stands in a stream: servers and edges in the order they were written. */
  datatype Entry = Entry(id: nat, status: Flags, servers: seq<nat>, ends: seq<(nat, Flags)>)

  ghost function Nums(s: seq<nat>): seq<Token> {
    seq(|s|, i requires 0 <= i < |s| => Num(s[i]))
  }

  ghost function Pairs(s: seq<(nat, Flags)>): seq<Token> {
    if s == [] then [] else Pairs(s[..|s| - 1]) + [Num(s[|s| - 1].0), Byte(s[|s| - 1].1)]
  }

  ghost function EntryTokens(e: Entry): seq<Token> {
    [Num(e.id), Num(e.id), Byte(e.status), Num(|e.servers|)] + Nums(e.servers) + [Num(|e.ends|)] + Pairs(e.ends)
  }

  ghost function EntriesTokens(es: seq<Entry>): seq<Token> {
    if es == [] then [] else EntriesTokens(es[..|es| - 1]) + EntryTokens(es[|es| - 1])
  }

  /** `s` enumerates `t`. */
  ghost predicate Lists<T>(s: seq<T>, t: set<T>) {
    NoDup(s) && Elems(s) == t
  }

  ghost function EndIds(s: seq<(nat, Flags)>): seq<nat> {
    seq(|s|, i requires 0 <= i < |s| => s[i].0)
  }

  ghost predicate EndsOf(s: seq<(nat, Flags)>, to: map<nat, Flags>) {
    Lists(EndIds(s), to.Keys) && forall i :: 0 <= i < |s| ==> s[i].0 in to && s[i].1 == to[s[i].0]
  }

  /** The entry says of its vertex what the graph says. */
  ghost predicate EntryOf(e: Entry, h: TxnMap) {
    e.id in h && e.status == h[e.id].status && Lists(e.servers, h[e.id].servers) && EndsOf(e.ends, h[e.id].to)
  }

  ghost function EntryIds(es: seq<Entry>): seq<nat> {
    seq(|es|, i requires 0 <= i < |es| => es[i].id)
  }

  ghost predicate EntriesOf(es: seq<Entry>, ids: set<nat>, h: TxnMap) {
    Lists(EntryIds(es), ids) && forall i :: 0 <= i < |es| ==> EntryOf(es[i], h)
  }

  /** The stream is one of those that describe `h`, whatever order the writer's hash sets iterate in. */
  ghost predicate Encodes(m: seq<Token>, h: TxnMap) {
    exists es :: EntriesOf(es, h.Keys, h) && m == [Num(|h|)] + EntriesTokens(es)
  }

  /** The subgraph of `g` induced on `ids`. */
  function Induced(g: TxnMap, ids: set<nat>): (h: TxnMap)
    requires ids <= g.Keys
    ensures h.Keys == ids
  {
    map a | a in ids :: g[a].(to := map b | b in g[a].to && b in ids :: g[a].to[b])
  }

  /** The vertex as it is sent: all it says of itself, and of its edges exactly those that lead to `ids`. */
  ghost predicate PartOf(sent: Node, n: Node, ids: set<nat>) {
    && sent.status == n.status && sent.servers == n.servers
    && forall b :: (b in sent.to <==> b in n.to && b in ids) && (b in sent.to ==> sent.to[b] == n.to[b])
  }

  lemma InducedParts(g: TxnMap, ids: set<nat>)
    requires ids <= g.Keys
    ensures forall a :: a in ids ==> PartOf(Induced(g, ids)[a], g[a], ids)
  {
  }

  lemma ListsPush<T>(s: seq<T>, t: set<T>, x: T)
    requires Lists(s, t) && x !in t
    ensures Lists(s + [x], t + {x})
  {
    assert forall y :: y in s ==> y in Elems(s);
    assert forall y :: y in s + [x] <==> y in s || y == x;
    assert Elems(s + [x]) == t + {x};
  }

  method WriteServers(m: seq<Token>, s: set<nat>) returns (m': seq<Token>, ghost order: seq<nat>)
    ensures Lists(order, s) && m' == m + [Num(|s|)] + Nums(order)
  {
    m', order := m + [Num(|s|)], [];
    var todo := s;
    while todo != {}
      invariant todo <= s && Lists(order, s - todo)
      invariant m' == m + [Num(|s|)] + Nums(order)
    {
      var x :| x in todo;
      ListsPush(order, s - todo, x);
      assert s - (todo - {x}) == s - todo + {x};
      assert Nums(order + [x]) == Nums(order) + [Num(x)];
      m', order, todo := m' + [Num(x)], order + [x], todo - {x};
    }
    assert s - todo == s;
  }

  /** The first half of `marshal_help_1`: the edges whose far end is wanted, kept in two vectors. */
  method CollectEnds(succs: map<nat, Flags>, ids: set<nat>) returns (to: seq<nat>, relation: seq<Flags>)
    ensures |to| == |relation| && EndsOf(Zip(to, relation), Within(succs, ids))
  {
    to, relation := [], [];
    var todo := succs.Keys;
    ghost var done: set<nat> := {};
    while todo != {}
      invariant todo <= succs.Keys && |to| == |relation| && done == (succs.Keys - todo) * ids
      invariant Lists(to, done)
      invariant forall i :: 0 <= i < |to| ==> to[i] in succs && relation[i] == succs[to[i]]
    {
      var x :| x in todo;
      if x in ids {
        ListsPush(to, done, x);
        to, relation := to + [x], relation + [succs[x]];
        done := done + {x};
      }
      todo := todo - {x};
    }
    assert done == Within(succs, ids).Keys;
    assert EndIds(Zip(to, relation)) == to;
    assert forall i :: 0 <= i < |to| ==> to[i] in Elems(to);
  }

  ghost function Within(to: map<nat, Flags>, ids: set<nat>): map<nat, Flags> {
    map b | b in to && b in ids :: to[b]
  }

  ghost function Zip(to: seq<nat>, relation: seq<Flags>): seq<(nat, Flags)>
    requires |to| == |relation|
  {
    seq(|to|, i requires 0 <= i < |to| => (to[i], relation[i]))
  }

  /** `marshal_help_1`: the number of wanted edges, then each far end with its relation. */
  method MarshalHelp1(m: seq<Token>, succs: map<nat, Flags>, ids: set<nat>)
      returns (m': seq<Token>, ghost ends: seq<(nat, Flags)>)
    ensures EndsOf(ends, Within(succs, ids)) && m' == m + [Num(|ends|)] + Pairs(ends)
  {
    var to, relation := CollectEnds(succs, ids);
    ends := Zip(to, relation);
    m' := m + [Num(|to|)];
    for i := 0 to |to|
      invariant m' == m + [Num(|ends|)] + Pairs(ends[..i])
    {
      assert ends[..i + 1][..i] == ends[..i];
      m' := m' + [Num(to[i]), Byte(relation[i])];
    }
    assert ends[..|to|] == ends;
  }

  /** The id, then the transaction's own record: id again, status and servers. */
  method WriteInfo(m: seq<Token>, a: nat, n: Node) returns (m': seq<Token>, ghost servers: seq<nat>)
    ensures Lists(servers, n.servers) && |servers| == |n.servers|
    ensures m' == m + [Num(a), Num(a), Byte(n.status), Num(|servers|)] + Nums(servers)
  {
    m' := m + [Num(a)];
    m' := m' + [Num(a), Byte(n.status)];
    m', servers := WriteServers(m', n.servers);
    ListsSize(servers, n.servers);
  }

  method WriteVertex(m: seq<Token>, g: TxnMap, ids: set<nat>, a: nat) returns (m': seq<Token>, ghost e: Entry)
    requires ids <= g.Keys && a in ids
    ensures e.id == a && EntryOf(e, Induced(g, ids)) && m' == m + EntryTokens(e)
  {
    ghost var servers, ends;
    m', servers := WriteInfo(m, a, g[a]);
    m', ends := MarshalHelp1(m', g[a].to, ids);
    e := Entry(a, g[a].status, servers, ends);
    assert Induced(g, ids)[a].to == Within(g[a].to, ids);
    assert m' == m + EntryTokens(e);
  }

  lemma ListsSize<T>(s: seq<T>, t: set<T>)
    requires Lists(s, t)
    ensures |s| == |t|
  {
    NoDupSize(s);
  }

  /** `write_to_marshal`: the vertices of `retSet`, in any order, with the edges among them. */
  method WriteToMarshal(g: TxnMap, retSet: set<nat>) returns (m: seq<Token>)
    requires retSet <= g.Keys
    ensures Encodes(m, Induced(g, retSet))
  {
    hide *;
    m := [Num(|retSet|)];
    ghost var es: seq<Entry> := [];
    ghost var h := Induced(g, retSet);
    NoEntries(m, h);
    var todo := retSet;
    while todo != {}
      invariant todo <= retSet && EntriesOf(es, retSet - todo, h)
      invariant m == [Num(|retSet|)] + EntriesTokens(es)
    {
      var a :| a in todo;
      ghost var e;
      m, e := WriteVertex(m, g, retSet, a);
      EntriesPush([Num(|retSet|)], es, retSet, todo, h, e);
      es, todo := es + [e], todo - {a};
    }
    AllEntries(es, h);
  }

  lemma NoEntries(m: seq<Token>, h: TxnMap)
    ensures EntriesOf([], h.Keys - h.Keys, h) && m == m + EntriesTokens([])
  {
  }

  lemma AllEntries(es: seq<Entry>, h: TxnMap)
    requires EntriesOf(es, h.Keys - {}, h)
    ensures Encodes([Num(|h.Keys|)] + EntriesTokens(es), h)
  {
    assert h.Keys - {} == h.Keys;
    assert |h.Keys| == |h|;
  }

  lemma EntriesPush(head: seq<Token>, es: seq<Entry>, ids: set<nat>, todo: set<nat>, h: TxnMap, e: Entry)
    requires EntriesOf(es, ids - todo, h) && EntryOf(e, h) && e.id in todo && e.id in ids
    ensures EntriesOf(es + [e], ids - (todo - {e.id}), h)
    ensures head + EntriesTokens(es) + EntryTokens(e) == head + EntriesTokens(es + [e])
  {
    ListsPush(EntryIds(es), ids - todo, e.id);
    assert EntryIds(es + [e]) == EntryIds(es) + [e.id];
    assert ids - (todo - {e.id}) == ids - todo + {e.id};
    assert (es + [e])[..|es|] == es;
  }

  /** The body of the plain `<<` for one vertex: every edge is written. */
  method WriteWholeVertex(m: seq<Token>, g: TxnMap, a: nat) returns (m': seq<Token>, ghost e: Entry)
    requires a in g
    ensures e.id == a && EntryOf(e, g) && m' == m + EntryTokens(e)
  {
    ghost var servers, ends;
    m', servers := WriteInfo(m, a, g[a]);
    m', ends := WriteEnds(m', g[a].to);
    e := Entry(a, g[a].status, servers, ends);
    assert m' == m + EntryTokens(e);
  }

  method WriteEnds(m: seq<Token>, succs: map<nat, Flags>) returns (m': seq<Token>, ghost ends: seq<(nat, Flags)>)
    ensures EndsOf(ends, succs) && m' == m + [Num(|ends|)] + Pairs(ends)
  {
    m' := m + [Num(|succs|)];
    var todo := succs.Keys;
    ends := [];
    while todo != {}
      invariant todo <= succs.Keys && EndsOf(ends, succs - todo)
      invariant m' == m + [Num(|succs|)] + Pairs(ends)
    {
      var b :| b in todo;
      EndsPush(ends, succs, todo, b);
      assert (ends + [(b, succs[b])])[..|ends|] == ends;
      m', ends, todo := m' + [Num(b), Byte(succs[b])], ends + [(b, succs[b])], todo - {b};
    }
    assert succs - todo == succs;
    ListsSize(EndIds(ends), succs.Keys);
  }

  lemma EndsPush(ends: seq<(nat, Flags)>, to: map<nat, Flags>, todo: set<nat>, b: nat)
    requires EndsOf(ends, to - todo) && b in to && b in todo
    ensures EndsOf(ends + [(b, to[b])], to - (todo - {b}))
  {
    ListsPush(EndIds(ends), (to - todo).Keys, b);
    assert EndIds(ends + [(b, to[b])]) == EndIds(ends) + [b];
    assert (to - (todo - {b})).Keys == (to - todo).Keys + {b};
  }

  /** The plain `<<`: every vertex with every edge; it insists that there is a vertex. */
  method WriteGraph(g: TxnMap) returns (m: seq<Token>)
    requires g != map[]
    ensures Encodes(m, g)
  {
    hide *;
    m := [Num(|g.Keys|)];
    ghost var es: seq<Entry> := [];
    NoEntries(m, g);
    var todo := g.Keys;
    while todo != {}
      invariant todo <= g.Keys && EntriesOf(es, g.Keys - todo, g)
      invariant m == [Num(|g.Keys|)] + EntriesTokens(es)
    {
      var a :| a in todo;
      ghost var e;
      m, e := WriteWholeVertex(m, g, a);
      EntriesPush([Num(|g.Keys|)], es, g.Keys, todo, g, e);
      es, todo := es + [e], todo - {a};
    }
    AllEntries(es, g);
  }

  // ---- The wire form of one graph, token by token

  /** Transaction 7 at server 3, with status 2 and an edge to itself of relation 4. */
  function Lone(): TxnMap {
    map[7 := Node(Flags(2), {3}, map[7 := Flags(4)])]
  }

  lemma LoneEntry(e: Entry)
    requires EntryOf(e, Lone())
    ensures EntryTokens(e) == [Num(7), Num(7), Byte(Flags(2)), Num(1), Num(3), Num(1), Num(7), Byte(Flags(4))]
  {
    hide Lists;
    assert e.id == 7 && e.status == Flags(2);
    assert Lone()[7].to.Keys == {7};
    Single(e.servers, 3);
    Single(EndIds(e.ends), 7);
    assert |e.ends| == |EndIds(e.ends)| == 1;
    assert e.ends[0].0 == EndIds(e.ends)[0] == 7 && e.ends[0].1 == Flags(4);
    var end := e.ends[0];
    assert e.ends[..0] == [];
    assert Pairs(e.ends) == [Num(end.0), Byte(end.1)];
    assert Nums(e.servers) == [Num(3)];
  }

  /** A count; id and id again, status, servers with their count; edges with their count, each an id and a relation. */
  lemma WireForm(m: seq<Token>)
    requires Encodes(m, Lone())
    ensures m == [Num(1), Num(7), Num(7), Byte(Flags(2)), Num(1), Num(3), Num(1), Num(7), Byte(Flags(4))]
  {
    hide Lists, EntryOf, EntryTokens;
    var es: seq<Entry> :| EntriesOf(es, Lone().Keys, Lone()) && m == [Num(|Lone()|)] + EntriesTokens(es);
    assert Lone().Keys == {7} && |Lone()| == 1;
    Single(EntryIds(es), 7);
    assert |es| == |EntryIds(es)| == 1;
    LoneEntry(es[0]);
    assert es[..0] == [];
    assert EntriesTokens(es) == EntryTokens(es[0]);
  }

  lemma Single(s: seq<nat>, x: nat)
    requires Lists(s, {x})
    ensures s == [x]
  {
    NoDupSize(s);
    assert s[0] in Elems(s);
  }
}
