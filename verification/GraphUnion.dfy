/** Merging a received dependency graph into one's own, vertex object by vertex object. */
module GraphUnion {
  import opened Seqs
  import opened UnionSpec
  import opened VertexStore

  class Vertex {
    var preds: map<Vertex, Flags>
    var succs: map<Vertex, Flags>
    var data: TxnInfo

    constructor (d: TxnInfo)
      ensures preds == map[] && succs == map[] && data == d
    {
      preds, succs, data := map[], map[], d;
    }

    /** `union_data`: the servers are added first, so that the status rule sees them. */
    method UnionData(ti: TxnInfo, own: nat, isServer: bool)
      modifies this`data
      ensures data == MergedInfo(own, isServer, old(data), ti)
    {
      data := data.(servers := data.servers + ti.servers);
      if isServer && own in data.servers {
      } else {
        data := data.(status := Or(data.status, ti.status));
      }
    }
  }

  class Graph {
    var vertexIndex: set<Vertex>
    var idIndex: map<nat, Vertex>

    constructor ()
      ensures Valid() && vertexIndex == {} && Abs() == map[]
    {
      vertexIndex, idIndex := {}, map[];
    }

    ghost function Snap(): Store<Vertex>
      reads this, vertexIndex
    {
      Store(vertexIndex, idIndex, DataMap(), FromMap(), ToMap())
    }

    /** The indexes agree, and every edge is recorded alike at both ends. */
    ghost predicate Valid()
      reads this, vertexIndex
    {
      VertexStore.Valid(Snap())
    }

    ghost function Abs(): (g: TxnMap)
      requires Valid()
      reads this, vertexIndex
      ensures g.Keys == idIndex.Keys
    {
      VertexStore.Abs(Snap())
    }

    ghost function DataMap(): map<Vertex, TxnInfo>
      reads this, vertexIndex
    {
      map v | v in vertexIndex :: v.data
    }

    ghost function FromMap(): map<Vertex, map<Vertex, Flags>>
      reads this, vertexIndex
    {
      map v | v in vertexIndex :: v.preds
    }

    ghost function ToMap(): map<Vertex, map<Vertex, Flags>>
      reads this, vertexIndex
    {
      map v | v in vertexIndex :: v.succs
    }

    method Insert(d: TxnInfo) returns (v: Vertex)
      modifies this
      ensures fresh(v) && Snap() == Inserted(old(Snap()), v, d)
    {
      v := new Vertex(d);
      idIndex := idIndex[d.id := v];
      vertexIndex := vertexIndex + {v};
      assert DataMap() == old(DataMap())[v := d];
      assert FromMap() == old(FromMap())[v := map[]];
      assert ToMap() == old(ToMap())[v := map[]];
    }

    method OrTo(v: Vertex, u: Vertex, relation: Flags)
      requires v in vertexIndex
      modifies v`succs
      ensures ToMap() == old(ToMap())[v := old(v.succs)[u := Or(Get(old(v.succs), u), relation)]]
    {
      v.succs := v.succs[u := Or(Get(v.succs, u), relation)];
    }

    method OrFrom(u: Vertex, v: Vertex, relation: Flags)
      requires u in vertexIndex
      modifies u`preds
      ensures FromMap() == old(FromMap())[u := old(u.preds)[v := Or(Get(old(u.preds), v), relation)]]
    {
      u.preds := u.preds[v := Or(Get(u.preds, v), relation)];
    }

    method Link(v: Vertex, u: Vertex, relation: Flags)
      requires v in vertexIndex && u in vertexIndex && Paired(v.succs, u.preds, v, u)
      modifies v`succs, u`preds
      ensures Snap() == Linked(old(Snap()), v, u, NewBits(old(Snap()), v, u, relation))
    {
      OrTo(v, u, relation);
      assert FromMap() == old(FromMap());
      OrFrom(u, v, relation);
      assert DataMap() == old(DataMap());
    }

    method UnionInfo(v: Vertex, d: TxnInfo, own: nat, isServer: bool)
      requires v in vertexIndex
      modifies v`data
      ensures Snap() == Redata(old(Snap()), v, MergedInfo(own, isServer, old(v.data), d))
    {
      v.UnionData(d, own, isServer);
    }

    /** `idIndex.find`, and a new vertex with a copy of the data when there is none. */
    method FindOrNew(d: TxnInfo) returns (v: Vertex, isNew: bool)
      requires Valid()
      modifies this
      ensures Valid() && Listed(idIndex, d.id, v) && v in vertexIndex && v.data.id == d.id
      ensures fresh(vertexIndex - old(vertexIndex)) && old(vertexIndex) <= vertexIndex
      ensures forall a :: a in old(idIndex) ==> Listed(idIndex, a, old(idIndex)[a])
      ensures isNew <==> d.id !in old(Abs())
      ensures Abs() == PutTarget(old(Abs()), d.id, NodeOf(d))
    {
      hide VertexStore.Valid, VertexStore.Abs;
      isNew := d.id !in idIndex;
      if isNew {
        v := Insert(d);
        InsertedOk(old(Snap()), v, d);
        assert v.data == DataMap()[v];
      } else {
        v := idIndex[d.id];
        FoundOk(Snap(), d.id);
      }
    }

    /** Both ends of an edge take the relation bits. */
    method OrRelation(v: Vertex, u: Vertex, relation: Flags)
      requires Valid() && v in vertexIndex && u in vertexIndex
      requires Listed(idIndex, v.data.id, v) && Listed(idIndex, u.data.id, u)
      modifies vertexIndex
      ensures Valid() && unchanged(this)
      ensures forall w :: w in vertexIndex ==> w.data == old(w.data)
      ensures Abs() == OrEdge(old(Abs()), v.data.id, u.data.id, relation)
    {
      ghost var s := Snap();
      ghost var bits := NewBits(s, v, u, relation);
      assert Paired(s.to[v], s.from[u], v, u);
      Link(v, u, relation);
      LinkedValid(s, v, u, bits);
      LinkedAbs(s, v, u, bits);
      OrAbs(s, v, u, relation);
    }

    /** One received vertex: found or inserted, and its data merged in when it was there already. */
    method UnionOwn(d: TxnInfo, own: nat, isServer: bool) returns (v: Vertex)
      requires Valid()
      modifies this, vertexIndex
      ensures Valid() && Listed(idIndex, d.id, v) && v in vertexIndex && v.data.id == d.id
      ensures fresh(vertexIndex - old(vertexIndex)) && old(vertexIndex) <= vertexIndex
      ensures Abs() == PutVertex(own, isServer, old(Abs()), d.id, NodeOf(d))
    {
      var isNew;
      v, isNew := FindOrNew(d);
      if !isNew {
        ghost var s, merged := Snap(), MergedInfo(own, isServer, v.data, d);
        UnionInfo(v, d, own, isServer);
        RedataValid(s, v, merged);
        RedataAbs(s, v, merged);
      }
    }

    /** One edge of a received vertex: its far end is found or inserted, then both ends take the relation. */
    method UnionEdge(ov: Vertex, td: TxnInfo, relation: Flags)
      requires Valid() && Listed(idIndex, ov.data.id, ov) && ov in vertexIndex
      modifies this, vertexIndex
      ensures Valid() && Listed(idIndex, ov.data.id, ov) && ov in vertexIndex && ov.data == old(ov.data)
      ensures fresh(vertexIndex - old(vertexIndex)) && old(vertexIndex) <= vertexIndex
      ensures Abs() == PutEdge(old(Abs()), ov.data.id, td.id, NodeOf(td), relation)
    {
      hide VertexStore.Valid, VertexStore.Abs;
      var newTv, isNew := FindOrNew(td);
      OrRelation(ov, newTv, relation);
    }

    /** The edges of a received vertex, in any order. */
    method UnionEdges(h: TxnMap, o: nat, ov: Vertex) returns (ghost bs: seq<nat>)
      requires Valid() && Listed(idIndex, o, ov) && ov in vertexIndex && ov.data.id == o
      requires Closed(h) && o in h
      modifies this, vertexIndex
      ensures Valid()
      ensures fresh(vertexIndex - old(vertexIndex)) && old(vertexIndex) <= vertexIndex
      ensures NoDup(bs) && forall b :: b in bs <==> b in h[o].to
      ensures Abs() == PutEdges(old(Abs()), h, o, bs)
    {
      hide VertexStore.Valid, VertexStore.Abs;
      bs := [];
      var todo := h[o].to.Keys;
      while todo != {}
        invariant todo <= h[o].to.Keys
        invariant Valid() && Listed(idIndex, o, ov) && ov in vertexIndex && ov.data.id == o
        invariant fresh(vertexIndex - old(vertexIndex)) && old(vertexIndex) <= vertexIndex
        invariant NoDup(bs) && forall b :: b in bs <==> b in h[o].to && b !in todo
        invariant Abs() == PutEdges(old(Abs()), h, o, bs)
      {
        var b :| b in todo;
        UnionEdge(ov, TxnInfo(b, h[b].status, h[b].servers), h[o].to[b]);
        assert (bs + [b])[..|bs|] == bs;
        bs := bs + [b];
        todo := todo - {b};
      }
    }

    /** One round of the loop of `union_graph`: a received vertex and its edges. */
    method UnionVertex(ghost g0: TxnMap, h: TxnMap, ghost p: TxnMap, o: nat, own: nat, isServer: bool)
      requires Valid() && Closed(h) && o in h && o !in p && Progress(own, isServer, g0, h, p, Abs())
      modifies this, vertexIndex
      ensures Valid()
      ensures fresh(vertexIndex - old(vertexIndex)) && old(vertexIndex) <= vertexIndex
      ensures Progress(own, isServer, g0, h, p[o := h[o]], Abs())
    {
      hide VertexStore.Valid, VertexStore.Abs, Progress;
      ProgressVertex(own, isServer, g0, h, p, Abs(), o);
      var ov := UnionOwn(TxnInfo(o, h[o].status, h[o].servers), own, isServer);
      ghost var g := Abs();
      ghost var bs := UnionEdges(h, o, ov);
      ProgressEdges(own, isServer, g0, h, p, g, o, bs);
      assert Part(h, o, bs) == h[o];
    }

    /**
     * `union_graph`, over the vertices of the received graph in any order. The graph becomes the merge of the two, its
     * indexes stay in step and its edges stay mirrored.
     */
    method UnionGraph(h: TxnMap, own: nat, isServer: bool)
      requires Valid() && Closed(h) && h != map[]
      modifies this, vertexIndex
      ensures Valid() && fresh(vertexIndex - old(vertexIndex))
      ensures Abs() == Merge(own, isServer, old(Abs()), h)
      ensures !isServer ==> Abs() == Join(old(Abs()), h)
    {
      hide VertexStore.Valid, VertexStore.Abs, Progress, Merge;
      ghost var p: TxnMap := map[];
      ProgressStart(own, isServer, Abs(), h);
      var todo := h.Keys;
      while todo != {}
        invariant todo <= h.Keys && p == map a | a in h && a !in todo :: h[a]
        invariant Valid() && old(vertexIndex) <= vertexIndex && fresh(vertexIndex - old(vertexIndex))
        invariant Progress(own, isServer, old(Abs()), h, p, Abs())
      {
        var o :| o in todo;
        UnionVertex(old(Abs()), h, p, o, own, isServer);
        p := p[o := h[o]];
        todo := todo - {o};
      }
      assert p == h;
      ProgressEnd(own, isServer, old(Abs()), h, Abs());
      ClientMerge(own, old(Abs()), h);
    }
  }
}
