/**
 * The edge table and its three multimap indexes (src/storage/local.rs). Deleting a node leaves
 * dead entries behind in the indexes; lookups skip them.
 */
module EdgeStore {
  import opened Wrappers
  import opened Graph

  type EdgeId = string

  /** A multimap table: a set of (key, edge id) pairs. */
  type Multimap = set<(string, EdgeId)>

  datatype Tables = Tables(edges: map<EdgeId, Edge>, from: Multimap, to: Multimap, kinds: Multimap)

  const EMPTY: Tables := Tables(map[], {}, {}, {})

  function IdsAt(index: Multimap, key: string): set<EdgeId> {
    set p | p in index && p.0 == key :: p.1
  }

  // ---------- the operations ----------

  function Insert(t: Tables, e: Edge): Tables {
    Tables(t.edges[e.id := e], t.from + {(e.src, e.id)}, t.to + {(e.dst, e.id)}, t.kinds + {(e.kind, e.id)})
  }

  function InsertAll(t: Tables, es: seq<Edge>): Tables
    decreases |es|
  {
    if es == [] then t else InsertAll(Insert(t, es[0]), es[1..])
  }

  function Delete(t: Tables, id: EdgeId): Tables {
    if id !in t.edges then t
    else
      var e := t.edges[id];
      Tables(t.edges - {id}, t.from - {(e.src, id)}, t.to - {(e.dst, id)}, t.kinds - {(e.kind, id)})
  }

  /** The entries of `index` under `key`, as pairs. */
  function EntriesAt(index: Multimap, key: string): Multimap {
    set p | p in index && p.0 == key
  }

  /** The edge part of `delete_node_tiered`: out-edges by the from index, then in-edges by the to index. */
  function DeleteNode(t: Tables, node: Id): Tables {
    Tables(t.edges - IdsAt(t.from, node) - IdsAt(t.to, node),
           t.from - EntriesAt(t.from, node),
           t.to - EntriesAt(t.to, node),
           t.kinds)
  }

  // ---------- the invariant ----------

  /** Every stored edge is in all three indexes, and no index entry misfiles a stored edge. */
  ghost predicate Indexed(t: Tables) {
    && (forall id :: id in t.edges ==>
          && t.edges[id].id == id && (t.edges[id].src, id) in t.from
          && (t.edges[id].dst, id) in t.to && (t.edges[id].kind, id) in t.kinds)
    && (forall p :: p in t.from && p.1 in t.edges ==> t.edges[p.1].src == p.0)
    && (forall p :: p in t.to && p.1 in t.edges ==> t.edges[p.1].dst == p.0)
    && (forall p :: p in t.kinds && p.1 in t.edges ==> t.edges[p.1].kind == p.0)
  }

  /** The id has never been used: no table mentions it. */
  ghost predicate Fresh(t: Tables, id: EdgeId) {
    && id !in t.edges
    && (forall p :: p in t.from + t.to + t.kinds ==> p.1 != id)
  }

  lemma InsertIndexed(t: Tables, e: Edge)
    requires Indexed(t) && Fresh(t, e.id)
    ensures Indexed(Insert(t, e))
  {
  }

  lemma DeleteIndexed(t: Tables, id: EdgeId)
    requires Indexed(t)
    ensures Indexed(Delete(t, id)) && Delete(t, id).edges == t.edges - {id}
  {
  }

  /** The edges left when every edge touching `node` is gone. */
  function Without(edges: map<EdgeId, Edge>, node: Id): map<EdgeId, Edge> {
    map id | id in edges && edges[id].src != node && edges[id].dst != node :: edges[id]
  }

  /** Deleting a node removes exactly the edges that touch it, dead index entries or not. */
  lemma DeleteNodeExact(t: Tables, node: Id)
    requires Indexed(t)
    ensures Indexed(DeleteNode(t, node)) && DeleteNode(t, node).edges == Without(t.edges, node)
    ensures forall id :: id in DeleteNode(t, node).edges <==>
      id in t.edges && t.edges[id].src != node && t.edges[id].dst != node
  {
    forall id | id in t.edges
      ensures id in IdsAt(t.from, node) <==> t.edges[id].src == node
      ensures id in IdsAt(t.to, node) <==> t.edges[id].dst == node
    {
      if t.edges[id].src == node { assert (node, id) in t.from; }
      if t.edges[id].dst == node { assert (node, id) in t.to; }
    }
  }

  // ---------- runs ----------

  datatype Op = InsertOne(e: Edge) | InsertMany(es: seq<Edge>) | DeleteOne(id: EdgeId) | DropNode(node: Id)

  function Apply(t: Tables, op: Op): Tables {
    match op
    case InsertOne(e) => Insert(t, e)
    case InsertMany(es) => InsertAll(t, es)
    case DeleteOne(id) => Delete(t, id)
    case DropNode(node) => DeleteNode(t, node)
  }

  function AddAll(m: map<EdgeId, Edge>, es: seq<Edge>): map<EdgeId, Edge>
    decreases |es|
  {
    if es == [] then m else AddAll(m[es[0].id := es[0]], es[1..])
  }

  /** The same operation on the edge map alone. */
  function ApplyToMap(m: map<EdgeId, Edge>, op: Op): map<EdgeId, Edge> {
    match op
    case InsertOne(e) => m[e.id := e]
    case InsertMany(es) => AddAll(m, es)
    case DeleteOne(id) => m - {id}
    case DropNode(node) => Without(m, node)
  }

  ghost predicate Legal(t: Tables, op: Op) {
    match op
    case InsertOne(e) => Fresh(t, e.id)
    case InsertMany(es) =>
      && (forall i :: 0 <= i < |es| ==> Fresh(t, es[i].id))
      && (forall i, j :: 0 <= i < j < |es| ==> es[i].id != es[j].id)
    case _ => true
  }

  lemma {:induction false} AddAllKeeps(m: map<EdgeId, Edge>, es: seq<Edge>, id: EdgeId)
    requires forall i :: 0 <= i < |es| ==> es[i].id != id
    ensures (id in AddAll(m, es) <==> id in m) && (id in m ==> AddAll(m, es)[id] == m[id])
    decreases |es|
  {
    if es != [] {
      assert es[0].id != id;
      AddAllKeeps(m[es[0].id := es[0]], es[1..], id);
    }
  }

  /** A batch with distinct ids stores every one of its edges, and by the lemma above leaves the rest as they were. */
  lemma {:induction false} AddAllAdds(m: map<EdgeId, Edge>, es: seq<Edge>, k: nat)
    requires k < |es| && forall i, j :: 0 <= i < j < |es| ==> es[i].id != es[j].id
    ensures es[k].id in AddAll(m, es) && AddAll(m, es)[es[k].id] == es[k]
    decreases |es|
  {
    var m1, rest := m[es[0].id := es[0]], es[1..];
    if k == 0 {
      AddAllKeeps(m1, rest, es[0].id);
    } else {
      AddAllAdds(m1, rest, k - 1);
    }
  }

  lemma {:induction false} InsertAllIndexed(t: Tables, es: seq<Edge>)
    requires Indexed(t) && Legal(t, InsertMany(es))
    ensures Indexed(InsertAll(t, es)) && InsertAll(t, es).edges == AddAll(t.edges, es)
    decreases |es|
  {
    if es != [] {
      InsertIndexed(t, es[0]);
      var t1, rest := Insert(t, es[0]), es[1..];
      forall i | 0 <= i < |rest| ensures Fresh(t1, rest[i].id) {
        assert rest[i] == es[i + 1] && Fresh(t, es[i + 1].id);
      }
      InsertAllIndexed(t1, rest);
    }
  }

  lemma StepExact(t: Tables, op: Op)
    requires Indexed(t) && Legal(t, op)
    ensures Indexed(Apply(t, op)) && Apply(t, op).edges == ApplyToMap(t.edges, op)
  {
    match op
    case InsertOne(e) => InsertIndexed(t, e);
    case InsertMany(es) => InsertAllIndexed(t, es);
    case DeleteOne(id) => DeleteIndexed(t, id);
    case DropNode(node) => DeleteNodeExact(t, node);
  }

  function Run(t: Tables, ops: seq<Op>): Tables
    decreases |ops|
  {
    if ops == [] then t else Run(Apply(t, ops[0]), ops[1..])
  }

  function RunOnMap(m: map<EdgeId, Edge>, ops: seq<Op>): map<EdgeId, Edge>
    decreases |ops|
  {
    if ops == [] then m else RunOnMap(ApplyToMap(m, ops[0]), ops[1..])
  }

  ghost predicate LegalRun(t: Tables, ops: seq<Op>)
    decreases |ops|
  {
    ops == [] || (Legal(t, ops[0]) && LegalRun(Apply(t, ops[0]), ops[1..]))
  }

  /** Over every run with fresh ids the indexes stay good and the table holds what a plain map would. */
  lemma {:induction false} RunExact(t: Tables, ops: seq<Op>)
    requires Indexed(t) && LegalRun(t, ops)
    ensures Indexed(Run(t, ops)) && Run(t, ops).edges == RunOnMap(t.edges, ops)
    decreases |ops|
  {
    hide Indexed;
    hide Legal;
    hide Apply;
    hide ApplyToMap;
    if ops != [] {
      StepExact(t, ops[0]);
      RunExact(Apply(t, ops[0]), ops[1..]);
    }
  }

  // ---------- the store ----------

  /** The three lookups: by source, by target (both with an optional type) and by type. */
  datatype Query =
    | Leaving(node: Id, kind: Option<string>)
    | Arriving(node: Id, kind: Option<string>)
    | OfKind(name: string)
  {
    function Key(): string { if OfKind? then name else node }

    function End(e: Edge): string { if Leaving? then e.src else if Arriving? then e.dst else e.kind }

    predicate KindOk(e: Edge) { OfKind? || kind.None? || e.kind == kind.value }
  }

  ghost predicate Stored(edges: map<EdgeId, Edge>, e: Edge) {
    exists id :: id in edges && edges[id] == e
  }

  /** `es` lists the stored edges a query asks for, each exactly once. */
  ghost predicate Lists(edges: map<EdgeId, Edge>, es: seq<Edge>, q: Query) {
    && Distinct(es)
    && forall e :: e in es <==> Stored(edges, e) && q.End(e) == q.Key() && q.KindOk(e)
  }

  class EdgeTables {
    var edges: map<EdgeId, Edge>
    var from: Multimap
    var to: Multimap
    var kinds: Multimap

    ghost function View(): Tables
      reads this
    {
      Tables(edges, from, to, kinds)
    }

    constructor ()
      ensures View() == EMPTY && Indexed(View())
    {
      edges, from, to, kinds := map[], {}, {}, {};
    }

    method InsertEdge(e: Edge)
      modifies this
      ensures View() == Insert(old(View()), e)
    {
      edges := edges[e.id := e];
      from := from + {(e.src, e.id)};
      to := to + {(e.dst, e.id)};
      kinds := kinds + {(e.kind, e.id)};
    }

    method InsertEdgesBatch(es: seq<Edge>)
      modifies this
      ensures View() == InsertAll(old(View()), es)
    {
      ghost var start := View();
      for i := 0 to |es|
        invariant InsertAll(View(), es[i..]) == InsertAll(start, es)
      {
        InsertEdge(es[i]);
      }
    }

    method DeleteEdge(id: EdgeId)
      modifies this
      ensures View() == Delete(old(View()), id)
    {
      if id in edges {
        var e := edges[id];
        from := from - {(e.src, id)};
        to := to - {(e.dst, id)};
        kinds := kinds - {(e.kind, id)};
      }
      edges := edges - {id};
    }

    /** Two loops: the node's entries in the from index, then those in the to index. */
    method DeleteNodeEdges(node: Id)
      modifies this
      ensures View() == DeleteNode(old(View()), node)
    {
      var left, index := DropEntries(edges, from, node);
      edges, from := left, index;
      left, index := DropEntries(edges, to, node);
      edges, to := left, index;
    }

    /** `get_edges_from`: exactly the stored edges leaving the node, of one type if asked, each once. */
    method GetEdgesFrom(node: Id, kind: Option<string>) returns (es: seq<Edge>)
      requires Indexed(View())
      ensures Lists(edges, es, Leaving(node, kind))
      ensures forall e :: e in es <==> Stored(edges, e) && e.src == node && (kind == None || kind == Some(e.kind))
    {
      es := Collect(edges, from, Leaving(node, kind), None);
    }

    method GetEdgesTo(node: Id, kind: Option<string>) returns (es: seq<Edge>)
      requires Indexed(View())
      ensures Lists(edges, es, Arriving(node, kind))
      ensures forall e :: e in es <==> Stored(edges, e) && e.dst == node && (kind == None || kind == Some(e.kind))
    {
      es := Collect(edges, to, Arriving(node, kind), None);
    }

    /** `get_edges_by_type`: at most `limit` of the stored edges of the type, and all of them if fewer. */
    method GetEdgesByType(kind: string, limit: Option<nat>) returns (es: seq<Edge>)
      requires Indexed(View())
      ensures Distinct(es) && forall e :: e in es ==> Stored(edges, e) && e.kind == kind
      ensures limit.Some? ==> |es| <= limit.value
      ensures limit.None? || |es| < limit.value ==> forall e :: Stored(edges, e) && e.kind == kind ==> e in es
    {
      es := Collect(edges, kinds, OfKind(kind), limit);
    }
  }

  /** One loop of the node delete: drop the listed edges and their entries under `key`. */
  method DropEntries(edges: map<EdgeId, Edge>, index: Multimap, key: string)
    returns (left: map<EdgeId, Edge>, index': Multimap)
    ensures left == edges - IdsAt(index, key) && index' == index - EntriesAt(index, key)
  {
    left, index' := edges, index;
    var todo := IdsAt(index, key);
    while todo != {}
      invariant todo <= IdsAt(index, key)
      invariant left == edges - (IdsAt(index, key) - todo)
      invariant forall p :: p in index' <==> p in index && !(p.0 == key && p.1 !in todo)
      decreases |todo|
    {
      var id :| id in todo;
      todo := todo - {id};
      left := left - {id};
      index' := index' - {(key, id)};
    }
  }

  /** The index files each stored edge under its end, and no stored edge elsewhere. */
  ghost predicate Files(edges: map<EdgeId, Edge>, index: Multimap, q: Query) {
    && (forall id :: id in edges ==> edges[id].id == id && (q.End(edges[id]), id) in index)
    && (forall p :: p in index && p.1 in edges ==> q.End(edges[p.1]) == p.0)
  }

  ghost predicate Holds(edges: map<EdgeId, Edge>, ids: set<EdgeId>, e: Edge) {
    e.id in ids && e.id in edges && edges[e.id] == e
  }

  lemma FiledIsStored(edges: map<EdgeId, Edge>, index: Multimap, q: Query, e: Edge)
    requires Files(edges, index, q)
    ensures Holds(edges, IdsAt(index, q.Key()), e) <==> Stored(edges, e) && q.End(e) == q.Key()
  {
    if Stored(edges, e) {
      var id :| id in edges && edges[id] == e;
      assert (q.End(e), id) in index;
    }
  }

  /** `es` lists what the ids in `seen` resolve to, filtered by type, each once. */
  ghost predicate Gathered(edges: map<EdgeId, Edge>, seen: set<EdgeId>, q: Query, es: seq<Edge>) {
    Distinct(es) && forall e :: e in es <==> Holds(edges, seen, e) && q.KindOk(e)
  }

  lemma GatherOne(edges: map<EdgeId, Edge>, seen: set<EdgeId>, q: Query, es: seq<Edge>, id: EdgeId)
    requires Gathered(edges, seen, q, es) && id !in seen
    requires forall x :: x in edges ==> edges[x].id == x
    ensures Gathered(edges, seen + {id}, q, if id in edges && q.KindOk(edges[id]) then es + [edges[id]] else es)
  {
    if id in edges && q.KindOk(edges[id]) {
      assert edges[id] !in es;
    }
  }

  lemma GatheredAll(edges: map<EdgeId, Edge>, index: Multimap, q: Query, es: seq<Edge>)
    requires Files(edges, index, q) && Gathered(edges, IdsAt(index, q.Key()), q, es)
    ensures Lists(edges, es, q)
  {
    forall e ensures Holds(edges, IdsAt(index, q.Key()), e) <==> Stored(edges, e) && q.End(e) == q.Key() {
      FiledIsStored(edges, index, q, e);
    }
  }

  lemma GatheredSome(edges: map<EdgeId, Edge>, index: Multimap, q: Query, seen: set<EdgeId>, es: seq<Edge>)
    requires Files(edges, index, q) && Gathered(edges, seen, q, es) && seen <= IdsAt(index, q.Key())
    ensures Distinct(es) && forall e :: e in es ==> Stored(edges, e) && q.End(e) == q.Key() && q.KindOk(e)
  {
    forall e | e in es ensures Stored(edges, e) && q.End(e) == q.Key() {
      FiledIsStored(edges, index, q, e);
    }
  }

  /** The loop of the three queries: follow the index, skip dead entries, filter by type, stop at the limit. */
  method Collect(edges: map<EdgeId, Edge>, index: Multimap, q: Query, limit: Option<nat>) returns (es: seq<Edge>)
    requires Files(edges, index, q)
    ensures Distinct(es) && forall e :: e in es ==> Stored(edges, e) && q.End(e) == q.Key() && q.KindOk(e)
    ensures limit.Some? ==> |es| <= limit.value
    ensures limit.None? || |es| < limit.value ==> Lists(edges, es, q)
  {
    es := [];
    var todo := IdsAt(index, q.Key());
    ghost var seen: set<EdgeId> := {};
    hide Distinct, Lists, IdsAt, Gathered;
    GatheredNone(edges, q);
    while todo != {} && (limit.None? || |es| < limit.value)
      invariant todo + seen == IdsAt(index, q.Key()) && todo !! seen
      invariant Gathered(edges, seen, q, es)
      invariant limit.Some? ==> |es| <= limit.value
      decreases |todo|
    {
      var id :| id in todo;
      GatherOne(edges, seen, q, es, id);
      todo, seen := todo - {id}, seen + {id};
      if id in edges && q.KindOk(edges[id]) {
        es := es + [edges[id]];
      }
    }
    GatheredSome(edges, index, q, seen, es);
    if todo == {} {
      GatheredAll(edges, index, q, es);
    }
  }

  lemma GatheredNone(edges: map<EdgeId, Edge>, q: Query)
    ensures Gathered(edges, {}, q, [])
  {
  }
}
