/** Dependency graphs as values, keyed by transaction id, and the join that merging two of them computes. */
module UnionSpec {
  import opened Seqs

  /** A byte of flags, as kept for a status and for an edge relation. */
  datatype Flags = Flags(bits: bv8)

  function Or(x: Flags, y: Flags): Flags {
    Flags(x.bits | y.bits)
  }

  const NONE := Flags(0)

  /** What a vertex says about its transaction: status bits, involved servers, and outgoing edges with relation bits. */
  datatype Node = Node(status: Flags, servers: set<nat>, to: map<nat, Flags>)

  type TxnMap = map<nat, Node>

  ghost predicate Closed(g: TxnMap) {
    forall a, b :: a in g && b in g[a].to ==> b in g
  }

  /** The relation bits on an edge, none when there is no edge. */
  function Bits(m: map<nat, Flags>, b: nat): Flags {
    if b in m then m[b] else NONE
  }

  function OrEdges(m: map<nat, Flags>, n: map<nat, Flags>): map<nat, Flags> {
    map b | b in m.Keys + n.Keys :: Or(Bits(m, b), Bits(n, b))
  }

  function To(g: TxnMap, a: nat): map<nat, Flags> {
    if a in g then g[a].to else map[]
  }

  /**
   * The status kept after hearing another opinion: a server that is itself involved in the transaction keeps its own,
   * everyone else accumulates the bits.
   */
  function MergeStatus(own: nat, isServer: bool, mine: Flags, servers: set<nat>, other: Flags): Flags {
    if isServer && own in servers then mine else Or(mine, other)
  }

  function MergeData(own: nat, isServer: bool, mine: Node, other: Node): Node {
    var servers := mine.servers + other.servers;
    mine.(status := MergeStatus(own, isServer, mine.status, servers, other.status), servers := servers)
  }

  function MergeNode(own: nat, isServer: bool, mine: Node, other: Node): Node {
    MergeData(own, isServer, mine, other).(to := OrEdges(mine.to, other.to))
  }

  /** Merging `h` into `g` at server `own` (or at a client). */
  function Merge(own: nat, isServer: bool, g: TxnMap, h: TxnMap): TxnMap {
    map a | a in g.Keys + h.Keys ::
      if a !in g then h[a] else if a !in h then g[a] else MergeNode(own, isServer, g[a], h[a])
  }

  /** The client-side merge; no site identity is involved. */
  function Join(g: TxnMap, h: TxnMap): TxnMap {
    Merge(0, false, g, h)
  }

  lemma ClientMerge(own: nat, g: TxnMap, h: TxnMap)
    ensures Merge(own, false, g, h) == Join(g, h)
  {
  }

  lemma OrLaws(x: Flags, y: Flags, z: Flags)
    ensures Or(x, y) == Or(y, x) && Or(Or(x, y), z) == Or(x, Or(y, z))
    ensures Or(x, x) == x && Or(x, NONE) == x && Or(NONE, x) == x
  {
  }

  lemma OrEdgesComm(m: map<nat, Flags>, n: map<nat, Flags>)
    ensures OrEdges(m, n) == OrEdges(n, m)
  {
    forall b | b in m.Keys + n.Keys
      ensures OrEdges(m, n)[b] == OrEdges(n, m)[b]
    {
      OrLaws(Bits(m, b), Bits(n, b), NONE);
    }
  }

  lemma OrEdgesAssoc(m: map<nat, Flags>, n: map<nat, Flags>, k: map<nat, Flags>)
    ensures OrEdges(OrEdges(m, n), k) == OrEdges(m, OrEdges(n, k))
  {
    var l, r := OrEdges(OrEdges(m, n), k), OrEdges(m, OrEdges(n, k));
    assert l.Keys == r.Keys;
    forall b | b in l
      ensures l[b] == r[b]
    {
      OrLaws(Bits(m, b), Bits(n, b), Bits(k, b));
    }
  }

  lemma OrEdgesIdem(m: map<nat, Flags>)
    ensures OrEdges(m, m) == m
  {
    forall b | b in m
      ensures OrEdges(m, m)[b] == m[b]
    {
      OrLaws(m[b], NONE, NONE);
    }
  }

  lemma JoinComm(g: TxnMap, h: TxnMap)
    ensures Join(g, h) == Join(h, g)
  {
    assert Join(g, h).Keys == Join(h, g).Keys;
    forall a | a in g && a in h
      ensures Join(g, h)[a] == Join(h, g)[a]
    {
      OrLaws(g[a].status, h[a].status, NONE);
      OrEdgesComm(g[a].to, h[a].to);
    }
  }

  lemma NodeAssoc(x: Node, y: Node, z: Node)
    ensures MergeNode(0, false, MergeNode(0, false, x, y), z) == MergeNode(0, false, x, MergeNode(0, false, y, z))
  {
    OrLaws(x.status, y.status, z.status);
    OrEdgesAssoc(x.to, y.to, z.to);
    assert x.servers + y.servers + z.servers == x.servers + (y.servers + z.servers);
  }

  lemma JoinAssoc(g: TxnMap, h: TxnMap, k: TxnMap)
    ensures Join(Join(g, h), k) == Join(g, Join(h, k))
  {
    var l, r := Join(Join(g, h), k), Join(g, Join(h, k));
    assert l.Keys == r.Keys;
    forall a | a in l
      ensures l[a] == r[a]
    {
      if a in g && a in h && a in k {
        NodeAssoc(g[a], h[a], k[a]);
      }
    }
  }

  lemma MergeIdem(own: nat, isServer: bool, g: TxnMap)
    ensures Merge(own, isServer, g, g) == g
  {
    forall a | a in g
      ensures Merge(own, isServer, g, g)[a] == g[a]
    {
      OrLaws(g[a].status, NONE, NONE);
      OrEdgesIdem(g[a].to);
    }
  }

  lemma JoinIdem(g: TxnMap)
    ensures Join(g, g) == g
  {
    MergeIdem(0, false, g);
  }

  /** Every bit of `x` is set in `y`. */
  predicate BitsBelow(x: Flags, y: Flags) {
    x.bits & y.bits == x.bits
  }

  ghost predicate EdgesBelow(m: map<nat, Flags>, n: map<nat, Flags>) {
    forall b :: b in m ==> b in n && BitsBelow(m[b], n[b])
  }

  ghost predicate NodeBelow(x: Node, y: Node) {
    BitsBelow(x.status, y.status) && x.servers <= y.servers && EdgesBelow(x.to, y.to)
  }

  /** `g` says no more than `h`: no vertex, status bit, server, edge or relation bit that `h` lacks. */
  ghost predicate Below(g: TxnMap, h: TxnMap) {
    forall a :: a in g ==> a in h && NodeBelow(g[a], h[a])
  }

  lemma BitsOr(x: Flags, y: Flags)
    ensures BitsBelow(x, y) <==> Or(x, y) == y
    ensures BitsBelow(NONE, y) && Or(NONE, y) == y
  {
  }

  lemma EdgesOr(m: map<nat, Flags>, n: map<nat, Flags>)
    ensures EdgesBelow(m, n) <==> OrEdges(m, n) == n
  {
    hide Or, BitsBelow;
    var u := OrEdges(m, n);
    forall b | b in u
      ensures BitsBelow(Bits(m, b), Bits(n, b)) <==> u[b] == Bits(n, b)
      ensures b !in m ==> u[b] == n[b]
    {
      BitsOr(Bits(m, b), Bits(n, b));
    }
    if u == n {
      forall b | b in m
        ensures b in n && BitsBelow(m[b], n[b])
      {
        assert b in u;
      }
    }
    if EdgesBelow(m, n) {
      assert u.Keys == n.Keys;
    }
  }

  lemma NodeOr(x: Node, y: Node)
    ensures NodeBelow(x, y) <==> MergeNode(0, false, x, y) == y
  {
    hide Or, BitsBelow, OrEdges, EdgesBelow;
    BitsOr(x.status, y.status);
    EdgesOr(x.to, y.to);
    assert x.servers <= y.servers <==> x.servers + y.servers == y.servers;
  }

  /** To say no more is to add nothing in a union. */
  lemma BelowJoin(g: TxnMap, h: TxnMap)
    ensures Below(g, h) <==> Join(g, h) == h
  {
    hide MergeNode, NodeBelow;
    var u := Join(g, h);
    forall a | a in g && a in h
      ensures NodeBelow(g[a], h[a]) <==> u[a] == h[a]
    {
      NodeOr(g[a], h[a]);
    }
    if u == h {
      assert forall a :: a in g ==> a in u;
    }
    if Below(g, h) {
      assert u.Keys == h.Keys;
    }
  }

  /** The join is the least graph above both: it loses nothing of either side and invents nothing. */
  lemma JoinLeast(g: TxnMap, h: TxnMap, k: TxnMap)
    ensures Below(g, Join(g, h)) && Below(h, Join(g, h))
    ensures Below(g, k) && Below(h, k) ==> Below(Join(g, h), k)
  {
    hide Below, Join;
    var j := Join(g, h);
    assert Join(g, j) == j by {
      JoinAssoc(g, g, h);
      JoinIdem(g);
    }
    assert Join(h, j) == j by {
      JoinComm(g, h);
      JoinAssoc(h, h, g);
      JoinIdem(h);
    }
    JoinAssoc(g, h, k);
    BelowJoin(g, j);
    BelowJoin(h, j);
    BelowJoin(g, k);
    BelowJoin(h, k);
    BelowJoin(j, k);
  }

  /**
   * Progress of a merge of `h` into `g0`: `p` is the part of `h` merged so far. A vertex of `h` may already be present
   * because an edge pointed at it; then it carries the data `h` has for it.
   */
  ghost predicate Progress(own: nat, isServer: bool, g0: TxnMap, h: TxnMap, p: TxnMap, g: TxnMap) {
    && p.Keys <= h.Keys
    && (forall a :: a in p ==> p[a].status == h[a].status && p[a].servers == h[a].servers)
    && g0.Keys + p.Keys <= g.Keys <= g0.Keys + h.Keys
    && forall a :: a in g ==> RowOk(own, isServer, g0, h, p, g, a)
  }

  ghost predicate RowOk(own: nat, isServer: bool, g0: TxnMap, h: TxnMap, p: TxnMap, g: TxnMap, a: nat)
    requires a in g && (a in g0 || a in h) && p.Keys <= h.Keys
  {
    && g[a].to == OrEdges(To(g0, a), To(p, a))
    && SameData(g[a], if a !in g0 then h[a] else if a in p then MergeData(own, isServer, g0[a], h[a]) else g0[a])
  }

  predicate SameData(m: Node, n: Node) {
    m.status == n.status && m.servers == n.servers
  }

  lemma ProgressStart(own: nat, isServer: bool, g0: TxnMap, h: TxnMap)
    ensures Progress(own, isServer, g0, h, map[], g0)
  {
    forall a | a in g0
      ensures RowOk(own, isServer, g0, h, map[], g0, a)
    {
      OrEdgesEmpty(g0[a].to);
    }
  }

  lemma OrEdgesEmpty(m: map<nat, Flags>)
    ensures OrEdges(m, map[]) == m
  {
    forall b | b in m
      ensures OrEdges(m, map[])[b] == m[b]
    {
      OrLaws(m[b], NONE, NONE);
    }
  }

  /** A vertex is looked up, merged with the incoming data, or inserted. */
  function PutVertex(own: nat, isServer: bool, g: TxnMap, a: nat, d: Node): TxnMap {
    if a in g then g[a := MergeData(own, isServer, g[a], d)] else g[a := d.(to := map[])]
  }

  lemma ProgressVertex(own: nat, isServer: bool, g0: TxnMap, h: TxnMap, p: TxnMap, g: TxnMap, a: nat)
    requires Progress(own, isServer, g0, h, p, g) && a in h && a !in p
    ensures Progress(own, isServer, g0, h, p[a := Bare(h[a])], PutVertex(own, isServer, g, a, h[a]))
  {
    hide MergeData, OrEdges, SameData;
    var p', g' := p[a := h[a].(to := map[])], PutVertex(own, isServer, g, a, h[a]);
    VertexRow(own, isServer, g0, h, p, g, a);
    forall x | x in g' && x != a
      ensures RowOk(own, isServer, g0, h, p', g', x)
    {
      assert RowOk(own, isServer, g0, h, p, g, x) && To(p', x) == To(p, x) && g'[x] == g[x];
    }
  }

  lemma VertexRow(own: nat, isServer: bool, g0: TxnMap, h: TxnMap, p: TxnMap, g: TxnMap, a: nat)
    requires Progress(own, isServer, g0, h, p, g) && a in h && a !in p
    ensures RowOk(own, isServer, g0, h, p[a := h[a].(to := map[])], PutVertex(own, isServer, g, a, h[a]), a)
  {
    assert a in g ==> RowOk(own, isServer, g0, h, p, g, a);
    OrEdgesEmpty(To(g0, a));
    SameTwice(own, isServer, h[a]);
  }

  lemma SameTwice(own: nat, isServer: bool, d: Node)
    ensures MergeData(own, isServer, d, d) == d
  {
    OrLaws(d.status, NONE, NONE);
    assert d.servers + d.servers == d.servers;
  }

  /** The far end of an edge is looked up, or inserted with the data the other graph has for it. */
  function PutTarget(g: TxnMap, b: nat, d: Node): TxnMap {
    if b in g then g else g[b := d.(to := map[])]
  }

  function OrEdge(g: TxnMap, a: nat, b: nat, bits: Flags): TxnMap
    requires a in g
  {
    g[a := g[a].(to := g[a].to[b := Or(Bits(g[a].to, b), bits)])]
  }

  function AddTo(p: TxnMap, a: nat, b: nat, bits: Flags): TxnMap
    requires a in p
  {
    p[a := p[a].(to := p[a].to[b := bits])]
  }

  lemma ProgressTarget(own: nat, isServer: bool, g0: TxnMap, h: TxnMap, p: TxnMap, g: TxnMap, b: nat)
    requires Progress(own, isServer, g0, h, p, g) && b in h
    ensures Progress(own, isServer, g0, h, p, PutTarget(g, b, h[b]))
  {
    OrEdgesEmpty(map[]);
    var g' := PutTarget(g, b, h[b]);
    forall x | x in g'
      ensures RowOk(own, isServer, g0, h, p, g', x)
    {
      assert x in g ==> RowOk(own, isServer, g0, h, p, g, x);
      assert x !in g ==> x == b && b !in p && b !in g0;
    }
  }

  lemma OrInsert(m: map<nat, Flags>, n: map<nat, Flags>, b: nat, bits: Flags)
    requires b !in n
    ensures OrEdges(m, n[b := bits]) == OrEdges(m, n)[b := Or(Bits(OrEdges(m, n), b), bits)]
  {
    var l, r := OrEdges(m, n[b := bits]), OrEdges(m, n)[b := Or(Bits(OrEdges(m, n), b), bits)];
    assert l.Keys == r.Keys;
    assert Bits(OrEdges(m, n), b) == Bits(m, b) by {
      OrLaws(Bits(m, b), NONE, NONE);
    }
    assert forall x :: x in l && x != b ==> Bits(n[b := bits], x) == Bits(n, x);
  }

  lemma ProgressEdge(own: nat, isServer: bool, g0: TxnMap, h: TxnMap, p: TxnMap, g: TxnMap, a: nat, b: nat, bits: Flags)
    requires Progress(own, isServer, g0, h, p, g) && a in p && b !in p[a].to
    ensures Progress(own, isServer, g0, h, AddTo(p, a, b, bits), OrEdge(g, a, b, bits))
  {
    var p', g' := AddTo(p, a, b, bits), OrEdge(g, a, b, bits);
    var m, n := To(g0, a), p[a].to;
    OrInsert(m, n, b, bits);
    forall x | x in g'
      ensures RowOk(own, isServer, g0, h, p', g', x)
    {
      assert RowOk(own, isServer, g0, h, p, g, x);
      assert x != a ==> To(p', x) == To(p, x);
    }
  }

  /** Merging one edge: its far end, then the relation bits. */
  function PutEdge(g: TxnMap, a: nat, b: nat, d: Node, bits: Flags): TxnMap
    requires a in g
  {
    OrEdge(PutTarget(g, b, d), a, b, bits)
  }

  lemma ProgressStep(own: nat, isServer: bool, g0: TxnMap, h: TxnMap, p: TxnMap, g: TxnMap, a: nat, b: nat, d: Node,
      bits: Flags)
    requires Progress(own, isServer, g0, h, p, g) && a in p && b !in p[a].to && b in h && d == h[b].(to := map[])
    ensures Progress(own, isServer, g0, h, AddTo(p, a, b, bits), PutEdge(g, a, b, d, bits))
  {
    ProgressTarget(own, isServer, g0, h, p, g, b);
    ProgressEdge(own, isServer, g0, h, p, PutTarget(g, b, d), a, b, bits);
  }

  function Bare(n: Node): Node {
    n.(to := map[])
  }

  /** Merging the edges of `a` in `h` that lead to `bs`, one after the other. */
  ghost function PutEdges(g: TxnMap, h: TxnMap, a: nat, bs: seq<nat>): (r: TxnMap)
    requires a in g && a in h && forall b :: b in bs ==> b in h[a].to && b in h
    ensures a in r
  {
    if bs == [] then g
    else
      var rest, b := bs[..|bs| - 1], bs[|bs| - 1];
      PutEdge(PutEdges(g, h, a, rest), a, b, Bare(h[b]), h[a].to[b])
  }

  /** The vertex `a` of `h` with only its edges to `bs`. */
  ghost function Part(h: TxnMap, a: nat, bs: seq<nat>): Node
    requires a in h
  {
    h[a].(to := map b | b in h[a].to && b in bs :: h[a].to[b])
  }

  lemma PartStep(h: TxnMap, p: TxnMap, a: nat, rest: seq<nat>, b: nat)
    requires a in h && b in h[a].to
    ensures AddTo(p[a := Part(h, a, rest)], a, b, h[a].to[b]) == p[a := Part(h, a, rest + [b])]
  {
    var l, r := Part(h, a, rest).to[b := h[a].to[b]], Part(h, a, rest + [b]).to;
    assert l.Keys == r.Keys;
    assert l == r;
  }

  lemma {:induction false} ProgressEdges(own: nat, isServer: bool, g0: TxnMap, h: TxnMap, p: TxnMap, g: TxnMap, a: nat,
      bs: seq<nat>)
    requires a in h && a in g && NoDup(bs) && forall b :: b in bs ==> b in h[a].to && b in h
    requires Progress(own, isServer, g0, h, p[a := Bare(h[a])], g)
    ensures Progress(own, isServer, g0, h, p[a := Part(h, a, bs)], PutEdges(g, h, a, bs))
  {
    hide Progress;
    if bs == [] {
      assert Part(h, a, bs) == Bare(h[a]);
    } else {
      var rest, b := bs[..|bs| - 1], bs[|bs| - 1];
      ProgressEdges(own, isServer, g0, h, p, g, a, rest);
      var q := p[a := Part(h, a, rest)];
      assert b !in rest;
      ProgressStep(own, isServer, g0, h, q, PutEdges(g, h, a, rest), a, b, Bare(h[b]), h[a].to[b]);
      PartStep(h, p, a, rest, b);
      assert bs == rest + [b];
    }
  }

  lemma ProgressEnd(own: nat, isServer: bool, g0: TxnMap, h: TxnMap, g: TxnMap)
    requires Progress(own, isServer, g0, h, h, g)
    ensures g == Merge(own, isServer, g0, h)
  {
    forall a | a in g
      ensures g[a] == Merge(own, isServer, g0, h)[a]
    {
      assert RowOk(own, isServer, g0, h, h, g, a);
      if a in g0 {
        OrEdgesEmpty(g0[a].to);
      } else {
        OrEdgesComm(map[], h[a].to);
        OrEdgesEmpty(h[a].to);
      }
    }
  }

  /**
   * Whether a server may hear `y` and `z` in either order about a transaction it holds `x` for: it is known to be
   * involved, or both opinions say alike whether it is, or the opinion that could arrive too early adds no status bit.
   */
  ghost predicate OrderFree(own: nat, x: Node, y: Node, z: Node) {
    || own in x.servers || (own in y.servers <==> own in z.servers)
    || (own in y.servers && Or(x.status, z.status) == x.status)
    || (own in z.servers && Or(x.status, y.status) == x.status)
  }

  ghost predicate OrderFreeAt(own: nat, g: TxnMap, h: TxnMap, k: TxnMap, a: nat) {
    a in h && a in k ==>
      if a in g then OrderFree(own, g[a], h[a], k[a])
      else own in h[a].servers + k[a].servers ==> h[a].status == k[a].status
  }

  /** Unlike the client join, the server merge depends on arrival order; this is exactly when it does not. */
  lemma ServerMergeOrder(own: nat, g: TxnMap, h: TxnMap, k: TxnMap)
    ensures Merge(own, true, Merge(own, true, g, h), k) == Merge(own, true, Merge(own, true, g, k), h) <==>
            forall a :: OrderFreeAt(own, g, h, k, a)
  {
    var l, r := Merge(own, true, Merge(own, true, g, h), k), Merge(own, true, Merge(own, true, g, k), h);
    assert l.Keys == r.Keys == g.Keys + h.Keys + k.Keys;
    forall a | a in l
      ensures l[a] == r[a] <==> OrderFreeAt(own, g, h, k, a)
    {
      if a in h && a in k {
        if a in g {
          NodeOrder(own, g[a], h[a], k[a]);
        } else {
          NodeSwap(own, h[a], k[a]);
        }
      }
    }
    assert l == r <==> forall a :: a in l ==> l[a] == r[a];
  }

  lemma NodeSwap(own: nat, y: Node, z: Node)
    ensures MergeNode(own, true, y, z) == MergeNode(own, true, z, y) <==>
            (own in y.servers + z.servers ==> y.status == z.status)
  {
    OrEdgesComm(y.to, z.to);
    OrLaws(y.status, z.status, NONE);
    assert y.servers + z.servers == z.servers + y.servers;
  }

  lemma NodeOrder(own: nat, x: Node, y: Node, z: Node)
    ensures OrderFree(own, x, y, z) <==>
      MergeNode(own, true, MergeNode(own, true, x, y), z) == MergeNode(own, true, MergeNode(own, true, x, z), y)
  {
    var l := MergeNode(own, true, MergeNode(own, true, x, y), z);
    var r := MergeNode(own, true, MergeNode(own, true, x, z), y);
    assert l.to == r.to by {
      OrEdgesComm(y.to, z.to);
      OrEdgesAssoc(x.to, y.to, z.to);
      OrEdgesAssoc(x.to, z.to, y.to);
    }
    assert l.servers == r.servers;
    StatusOrder(own in x.servers, own in y.servers, own in z.servers, x.status, y.status, z.status);
    assert own in l.servers <==> own in x.servers || own in y.servers || own in z.servers;
  }

  lemma StatusOrder(inX: bool, inY: bool, inZ: bool, x: Flags, y: Flags, z: Flags)
    ensures (if inX || inY || inZ then if inX || inY then x else Or(x, y) else Or(Or(x, y), z)) ==
            (if inX || inY || inZ then if inX || inZ then x else Or(x, z) else Or(Or(x, z), y)) <==>
            inX || (inY <==> inZ) || (inY && Or(x, z) == x) || (inZ && Or(x, y) == x)
  {
    OrLaws(x, y, z);
    OrLaws(x, z, y);
    OrLaws(y, z, x);
  }

  /** Two servers are heard, one of which knows this server is involved; the order decides the status kept. */
  lemma ServerOrderMatters()
    ensures exists own: nat, g: TxnMap, h: TxnMap, k: TxnMap ::
      Merge(own, true, Merge(own, true, g, h), k) != Merge(own, true, Merge(own, true, g, k), h)
  {
    var g: TxnMap := map[7 := Node(Flags(0), {}, map[])];
    var h: TxnMap := map[7 := Node(Flags(2), {1}, map[])];
    var k: TxnMap := map[7 := Node(Flags(4), {}, map[])];
    ServerMergeOrder(1, g, h, k);
    assert !OrderFreeAt(1, g, h, k, 7);
  }

  // ---- Any number of unions at one server

  ghost function MergeAll(own: nat, g: TxnMap, hs: seq<TxnMap>): TxnMap {
    if hs == [] then g else Merge(own, true, MergeAll(own, g, hs[..|hs| - 1]), hs[|hs| - 1])
  }

  /** What a server says of a transaction it is involved in stands, whatever others say in whatever order. */
  lemma {:induction false} OwnStatusStands(own: nat, g: TxnMap, hs: seq<TxnMap>, a: nat)
    requires a in g && own in g[a].servers
    ensures a in MergeAll(own, g, hs) && own in MergeAll(own, g, hs)[a].servers
    ensures MergeAll(own, g, hs)[a].status == g[a].status
  {
    if hs != [] {
      OwnStatusStands(own, g, hs[..|hs| - 1], a);
    }
  }

  ghost predicate Says(h: TxnMap, a: nat, bit: bv8) {
    a in h && h[a].status.bits & bit != 0
  }

  /** Someone has said `bit` of the transaction. */
  ghost predicate Said(hs: seq<TxnMap>, a: nat, bit: bv8) {
    exists i :: 0 <= i < |hs| && Says(hs[i], a, bit)
  }

  /**
   * Of a transaction that nobody places at the server, it gathers every status bit that anyone has said, and no other.
   */
  lemma {:induction false} OthersGather(own: nat, g: TxnMap, hs: seq<TxnMap>, a: nat, bit: bv8)
    requires a in g && own !in g[a].servers && forall i :: 0 <= i < |hs| && a in hs[i] ==> own !in hs[i][a].servers
    ensures a in MergeAll(own, g, hs) && own !in MergeAll(own, g, hs)[a].servers
    ensures MergeAll(own, g, hs)[a].status.bits & bit != 0 <==> g[a].status.bits & bit != 0 || Said(hs, a, bit)
  {
    if hs != [] {
      var n := |hs| - 1;
      var before := MergeAll(own, g, hs[..n]);
      OthersGather(own, g, hs[..n], a, bit);
      SaidLast(hs, a, bit);
      if a in hs[n] {
        OrBit(before[a].status.bits, hs[n][a].status.bits, bit);
      }
    }
  }

  lemma OrBit(x: bv8, y: bv8, bit: bv8)
    ensures (x | y) & bit != 0 <==> x & bit != 0 || y & bit != 0
  {
  }

  lemma SaidLast(hs: seq<TxnMap>, a: nat, bit: bv8)
    requires hs != []
    ensures var n := |hs| - 1; Said(hs, a, bit) <==> Said(hs[..n], a, bit) || Says(hs[n], a, bit)
  {
    hide Says;
    var n := |hs| - 1;
    if Said(hs, a, bit) && !Says(hs[n], a, bit) {
      var i :| 0 <= i < |hs| && Says(hs[i], a, bit);
      assert hs[..n][i] == hs[i];
    }
    if Said(hs[..n], a, bit) {
      var i :| 0 <= i < n && Says(hs[..n][i], a, bit);
      assert hs[i] == hs[..n][i];
    }
  }
}
