/**
 * Two queue-based searches of src/query/executor.rs, `traverse` and `shortest_path`. The database
 * is a snapshot: which ids are stored, and the stored edges.
 */
module Search {
  import opened Wrappers
  import opened Graph
  import BreadthFirst

  datatype Traversal = Traversal(nodes: set<Id>, edges: seq<Edge>, adjacency: map<Id, seq<Id>>)

  function Targets(es: seq<Edge>): (r: seq<Id>)
    ensures |r| == |es| && forall i :: 0 <= i < |es| ==> r[i] == es[i].dst
  {
    seq(|es|, i requires 0 <= i < |es| => es[i].dst)
  }

  /** The ids `traverse` expands: those at distance below the limit. */
  ghost function Expanded(es: seq<Edge>, start: Id, maxDepth: nat): set<Id> {
    if maxDepth == 0 then {} else Within(es, {start}, maxDepth - 1)
  }

  /** The queue entries for the targets not yet visited. */
  function NewEntries(kept: seq<Edge>, visited: set<Id>, depth: nat): seq<(Id, nat)> {
    if kept == [] then [] else
    var e := kept[|kept| - 1];
    NewEntries(kept[..|kept| - 1], visited, depth) + if e.dst in visited then [] else [(e.dst, depth + 1)]
  }

  /** The edge loop of one step: filter by type, note the target, queue it unless already visited. */
  method ExpandNode(out: seq<Edge>, filter: Filter, visited: set<Id>, depth: nat)
    returns (kept: seq<Edge>, pushed: seq<(Id, nat)>, neighbors: seq<Id>)
    ensures kept == Allowed(out, filter) && neighbors == Targets(kept)
    ensures pushed == NewEntries(kept, visited, depth)
  {
    hide Allowed, Targets, NewEntries;
    kept, pushed, neighbors := [], [], [];
    ExpandStart(out, filter, visited, depth);
    for i := 0 to |out|
      invariant kept + Allowed(out[i..], filter) == Allowed(out, filter)
      invariant neighbors == Targets(kept)
      invariant pushed == NewEntries(kept, visited, depth)
    {
      var edge := out[i];
      AllowedHead(out, i, filter);
      if filter.Allows(edge) {
        ExpandSnoc(kept, edge, visited, depth);
        neighbors := neighbors + [edge.dst];
        if edge.dst !in visited {
          pushed := pushed + [(edge.dst, depth + 1)];
        }
        kept := kept + [edge];
      }
    }
  }

  lemma ExpandStart(out: seq<Edge>, filter: Filter, visited: set<Id>, depth: nat)
    ensures out[0..] == out && Targets([]) == [] && NewEntries([], visited, depth) == []
    ensures Allowed(out[|out|..], filter) == []
  {
  }

  lemma AllowedHead(out: seq<Edge>, i: nat, filter: Filter)
    requires i < |out|
    ensures Allowed(out[i..], filter) == (if filter.Allows(out[i]) then [out[i]] else []) + Allowed(out[i +
      1..], filter)
  {
    assert out[i..][1..] == out[i + 1..];
  }

  lemma ExpandSnoc(kept: seq<Edge>, e: Edge, visited: set<Id>, depth: nat)
    ensures Targets(kept + [e]) == Targets(kept) + [e.dst]
    ensures NewEntries(kept + [e], visited, depth) ==
      NewEntries(kept, visited, depth) + if e.dst in visited then [] else [(e.dst, depth + 1)]
  {
    assert (kept + [e])[..|kept|] == kept;
  }

  lemma {:induction false} NewEntriesIn(kept: seq<Edge>, visited: set<Id>, depth: nat)
    ensures var pushed := NewEntries(kept, visited, depth);
            && (forall i :: 0 <= i < |pushed| ==>
                  pushed[i].1 == depth + 1 && exists e :: e in kept && e.dst == pushed[i].0)
            && (forall e :: e in kept ==> e.dst in visited || (e.dst, depth + 1) in pushed)
  {
    if kept != [] {
      var rest, last := kept[..|kept| - 1], kept[|kept| - 1];
      NewEntriesIn(rest, visited, depth);
      assert kept == rest + [last];
      assert last in kept;
    }
  }

  /** The loop queues what the breadth-first invariant asks for. */
  lemma ExpandPushes(edges: seq<Edge>, filter: Filter, settled: map<Id, nat>, id: Id, depth: nat)
    ensures BreadthFirst.Pushes(Allowed(edges, filter), id, depth, settled,
                                NewEntries(Allowed(OutEdges(edges, id), filter), settled.Keys + {id}, depth))
  {
    hide Allowed;
    hide OutEdges;
    hide NewEntries;
    var es, kept := Allowed(edges, filter), Allowed(OutEdges(edges, id), filter);
    var pushed := NewEntries(kept, settled.Keys + {id}, depth);
    forall e ensures e in kept <==> e in es && e.src == id {
      AllowedIn(edges, filter, e);
      OutEdgesIn(edges, id, e);
      AllowedIn(OutEdges(edges, id), filter, e);
    }
    NewEntriesIn(kept, settled.Keys + {id}, depth);
  }

  /** What `traverse` is asked: the database snapshot, the start, the depth limit and the edge types. */
  datatype Request = Request(stored: set<Id>, edges: seq<Edge>, start: Id, maxDepth: nat, filter: Filter) {
    ghost function Es(): seq<Edge> { Allowed(edges, filter) }
  }

  /** Its working state: the queue, the visited ids and the result so far. */
  datatype Progress = Progress(queue: seq<(Id, nat)>, visited: set<Id>, nodes: set<Id>,
                               all: seq<Edge>, adjacency: map<Id, seq<Id>>)

  ghost predicate TraverseInv(q: Request, settled: map<Id, nat>, s: Progress) {
    && s.visited == settled.Keys && s.nodes == q.stored * s.visited
    && BreadthFirst.Inv(q.Es(), q.start, q.maxDepth, settled, s.queue)
    && Gathered(q.edges, q.filter, Below(settled, q.maxDepth), s.all, s.adjacency)
  }

  lemma TraverseStart(q: Request)
    ensures TraverseInv(q, map[], Progress([(q.start, 0)], {}, {}, [], map[]))
  {
    BreadthFirst.InitInv(q.Es(), q.start, q.maxDepth);
  }

  lemma TraverseSeen(q: Request, settled: map<Id, nat>, s: Progress)
    requires TraverseInv(q, settled, s) && s.queue != [] && s.queue[0].0 in s.visited
    ensures TraverseInv(q, settled, s.(queue := s.queue[1..]))
  {
    hide BreadthFirst.Inv;
    hide Gathered;
    BreadthFirst.DropSettled(q.Es(), q.start, q.maxDepth, settled, s.queue);
  }

  lemma TraverseFront(q: Request, settled: map<Id, nat>, s: Progress)
    requires TraverseInv(q, settled, s) && s.queue != []
    ensures s.queue[0].0 in Universe(q.Es(), {q.start})
  {
    BreadthFirst.FrontWithin(q.Es(), q.start, q.maxDepth, settled, s.queue);
    WithinUniverse(q.Es(), {q.start}, s.queue[0].1);
  }

  lemma TraverseLimit(q: Request, settled: map<Id, nat>, s: Progress)
    requires TraverseInv(q, settled, s) && s.queue != [] && s.queue[0].0 !in s.visited
    requires s.queue[0].1 >= q.maxDepth
    ensures var (id, depth) := s.queue[0];
            TraverseInv(q, settled[id := depth],
                        Progress(s.queue[1..], s.visited + {id}, if id in q.stored then s.nodes + {id} else s.nodes,
                                 s.all, s.adjacency))
  {
    hide BreadthFirst.Inv;
    hide Gathered;
    hide Below;
    var (id, depth) := s.queue[0];
    BreadthFirst.SettleFront(q.Es(), q.start, q.maxDepth, settled, s.queue, []);
    assert s.queue[1..] + [] == s.queue[1..];
    BelowAdd(settled, id, depth, q.maxDepth);
  }

  lemma TraverseExpand(q: Request, settled: map<Id, nat>, s: Progress)
    requires Distinct(q.edges)
    requires TraverseInv(q, settled, s) && s.queue != [] && s.queue[0].0 !in s.visited
    requires s.queue[0].1 < q.maxDepth
    ensures var (id, depth) := s.queue[0];
            var kept := Allowed(OutEdges(q.edges, id), q.filter);
            TraverseInv(q, settled[id := depth],
                        Progress(s.queue[1..] + NewEntries(kept, s.visited + {id}, depth), s.visited + {id},
                                 if id in q.stored then s.nodes + {id} else s.nodes,
                                 s.all + kept, s.adjacency[id := Targets(kept)]))
  {
    hide BreadthFirst.Inv;
    hide BreadthFirst.Pushes;
    hide Gathered;
    hide Below;
    hide Distinct;
    var (id, depth) := s.queue[0];
    var kept := Allowed(OutEdges(q.edges, id), q.filter);
    ExpandPushes(q.edges, q.filter, settled, id, depth);
    BreadthFirst.SettleFront(q.Es(), q.start, q.maxDepth, settled, s.queue, NewEntries(kept, s.visited + {id}, depth));
    BelowAdd(settled, id, depth, q.maxDepth);
    GatherNode(q.edges, q.filter, Below(settled, q.maxDepth), s.all, s.adjacency, id);
  }

  /**
   * `traverse` visits exactly the ids at distance at most `maxDepth` over allowed edges, and
   * returns each allowed out-edge of the ids at distance below `maxDepth` exactly once.
   */
  method Traverse(q: Request) returns (r: Result<Traversal>)
    requires Distinct(q.edges)
    ensures r.Err? <==> q.start !in q.stored
    ensures r.Ok? ==>
              && r.value.nodes == q.stored * Within(q.Es(), {q.start}, q.maxDepth)
              && Gathered(q.edges, q.filter, Expanded(q.Es(), q.start, q.maxDepth), r.value.edges, r.value.adjacency)
  {
    hide *;
    if q.start !in q.stored {
      return Err;
    }
    ghost var settled: map<Id, nat>, left := map[], Universe(q.Es(), {q.start});
    var nodes: set<Id>, all: seq<Edge>, adjacency: map<Id, seq<Id>> := {}, [], map[];
    var queue: seq<(Id, nat)>, visited: set<Id> := [(q.start, 0)], {};
    TraverseStart(q);
    while queue != []
      invariant TraverseInv(q, settled, Progress(queue, visited, nodes, all, adjacency))
      invariant left == Universe(q.Es(), {q.start}) - visited
      decreases |left|, |queue|
    {
      ghost var before := Progress(queue, visited, nodes, all, adjacency);
      var (id, depth) := queue[0];
      if id in visited {
        TraverseSeen(q, settled, before);
        queue := queue[1..];
        continue;
      }
      TraverseFront(q, settled, before);
      visited, left := visited + {id}, left - {id};
      if id in q.stored {
        nodes := nodes + {id};
      }
      if depth >= q.maxDepth {
        TraverseLimit(q, settled, before);
        queue, settled := queue[1..], settled[id := depth];
        continue;
      }
      var kept, pushed, neighbors := ExpandNode(OutEdges(q.edges, id), q.filter, visited, depth);
      TraverseExpand(q, settled, before);
      settled := settled[id := depth];
      queue := queue[1..] + pushed;
      all := all + kept;
      adjacency := adjacency[id := neighbors];
    }
    TraverseEnd(q, settled, Progress(queue, visited, nodes, all, adjacency));
    r := Ok(Traversal(nodes, all, adjacency));
  }

  lemma TraverseEnd(q: Request, settled: map<Id, nat>, s: Progress)
    requires TraverseInv(q, settled, s) && s.queue == []
    ensures s.nodes == q.stored * Within(q.Es(), {q.start}, q.maxDepth)
    ensures Gathered(q.edges, q.filter, Expanded(q.Es(), q.start, q.maxDepth), s.all, s.adjacency)
  {
    FinalDepths(q.Es(), q.start, q.maxDepth, settled);
  }

  /** `all` lists the allowed out-edges of `inner`, each once; `adjacency` holds their targets in order. */
  ghost predicate Gathered(edges: seq<Edge>, filter: Filter, inner: set<Id>, all: seq<Edge>, adjacency: map<Id,
                           seq<Id>>) {
    && Distinct(all)
    && (forall e :: e in all <==> e in edges && filter.Allows(e) && e.src in inner)
    && adjacency.Keys == inner
    && (forall x :: x in inner ==> adjacency[x] == Targets(Allowed(OutEdges(edges, x), filter)))
  }

  ghost function Below(settled: map<Id, nat>, maxDepth: nat): set<Id> {
    set v | v in settled && settled[v] < maxDepth
  }

  lemma BelowAdd(settled: map<Id, nat>, id: Id, depth: nat, maxDepth: nat)
    ensures Below(map[], maxDepth) == {}
    ensures id !in Below(settled, maxDepth) ==>
              Below(settled[id := depth], maxDepth) ==
              if depth < maxDepth then Below(settled, maxDepth) + {id} else Below(settled, maxDepth)
    ensures id in settled ==> (id in Below(settled, maxDepth) <==> settled[id] < maxDepth)
    ensures Below(settled, maxDepth) <= settled.Keys
  {
  }

  /** Gathering one more node's edges. */
  lemma GatherNode(edges: seq<Edge>, filter: Filter, inner: set<Id>, all: seq<Edge>, adjacency: map<Id, seq<Id>>,
                   id: Id)
    requires Distinct(edges) && Gathered(edges, filter, inner, all, adjacency) && id !in inner
    ensures var kept := Allowed(OutEdges(edges, id), filter);
            Gathered(edges, filter, inner + {id}, all + kept, adjacency[id := Targets(kept)])
  {
    hide Distinct, Allowed, OutEdges, Targets;
    var kept := Allowed(OutEdges(edges, id), filter);
    KeptDistinct(edges, filter, id);
    forall e ensures e in kept <==> e in edges && filter.Allows(e) && e.src == id {
      OutEdgesIn(edges, id, e);
      AllowedIn(OutEdges(edges, id), filter, e);
    }
    DistinctConcat(all, kept);
  }

  lemma KeptDistinct(edges: seq<Edge>, filter: Filter, id: Id)
    requires Distinct(edges)
    ensures Distinct(Allowed(OutEdges(edges, id), filter))
  {
    OutEdgesDistinct(edges, id);
    AllowedDistinct(OutEdges(edges, id), filter);
  }

  /** With the queue empty, the settled ids are those within the limit, each at its distance. */
  lemma FinalDepths(es: seq<Edge>, start: Id, maxDepth: nat, settled: map<Id, nat>)
    requires BreadthFirst.Inv(es, start, maxDepth, settled, [])
    ensures settled.Keys == Within(es, {start}, maxDepth)
    ensures Below(settled, maxDepth) == Expanded(es, start, maxDepth)
  {
    hide Within;
    hide BreadthFirst.Inv;
    forall x ensures x in settled <==> x in Within(es, {start}, maxDepth) {
      if x in Within(es, {start}, maxDepth) {
        BreadthFirst.Covered(es, start, maxDepth, settled, [], maxDepth, x);
      } else if x in settled {
        BreadthFirst.SettledWithin(es, start, maxDepth, settled, [], x);
        WithinGrows(es, {start}, settled[x], maxDepth);
      }
    }
    if maxDepth > 0 {
      forall x ensures x in settled && settled[x] < maxDepth <==> x in Within(es, {start}, maxDepth - 1) {
        if x in Within(es, {start}, maxDepth - 1) {
          BreadthFirst.Covered(es, start, maxDepth, settled, [], maxDepth - 1, x);
        } else if x in settled && settled[x] < maxDepth {
          BreadthFirst.SettledWithin(es, start, maxDepth, settled, [], x);
          WithinGrows(es, {start}, settled[x], maxDepth - 1);
        }
      }
    }
  }

  // ---------- shortest path ----------

  datatype Route = Route(id: Id, path: seq<Id>)

  /** A queue of routes seen as a queue of ids with their hop counts. */
  ghost function Hops(queue: seq<Route>): seq<(Id, nat)> {
    seq(|queue|, i requires 0 <= i < |queue| =>
      (queue[i].id, if queue[i].path == [] then 0 else |queue[i].path| - 1))
  }

  lemma HopsFront(queue: seq<Route>)
    requires queue != []
    ensures |Hops(queue)| == |queue| && Hops(queue)[1..] == Hops(queue[1..])
    ensures queue[0].path != [] ==> Hops(queue)[0] == (queue[0].id, |queue[0].path| - 1)
  {
  }

  lemma HopsConcat(a: seq<Route>, b: seq<Route>)
    ensures Hops([]) == [] && Hops(a + b) == Hops(a) + Hops(b)
  {
  }

  ghost predicate IsRoute(es: seq<Edge>, from: Id, r: Route) {
    |r.path| > 0 && IsWalk(es, r.path) && r.path[0] == from && r.path[|r.path| - 1] == r.id
  }

  ghost predicate AreRoutes(es: seq<Edge>, from: Id, queue: seq<Route>) {
    forall i :: 0 <= i < |queue| ==> IsRoute(es, from, queue[i])
  }

  lemma ExtendRoute(es: seq<Edge>, from: Id, r: Route, e: Edge)
    requires IsRoute(es, from, r) && e in es && e.src == r.id
    ensures IsRoute(es, from, Route(e.dst, r.path + [e.dst]))
  {
    var p := r.path + [e.dst];
    assert Linked(es, r.id, e.dst);
    forall i | 0 <= i < |p| - 1 ensures Linked(es, p[i], p[i + 1]) {
      if i < |p| - 2 { assert Linked(es, r.path[i], r.path[i + 1]); }
    }
  }

  /** The routes one hop longer than `current`, to every target outside `visited`. */
  ghost predicate Extensions(es: seq<Edge>, from: Id, current: Route, visited: set<Id>, pushed: seq<Route>) {
    && AreRoutes(es, from, pushed)
    && (forall i :: 0 <= i < |pushed| ==>
          |pushed[i].path| == |current.path| + 1 && Linked(es, current.id, pushed[i].id))
    && (forall y :: Linked(es, current.id, y) ==> y in visited || exists i :: 0 <= i < |pushed| && pushed[i].id == y)
  }

  /** The edge loop of one step: extend the route to every target not yet visited. */
  method ExtendRoutes(es: seq<Edge>, from: Id, current: Route, visited: set<Id>) returns (pushed: seq<Route>)
    requires IsRoute(es, from, current)
    ensures Extensions(es, from, current, visited, pushed)
  {
    pushed := [];
    var out := OutEdges(es, current.id);
    for k := 0 to |out|
      invariant AreRoutes(es, from, pushed)
      invariant forall i :: 0 <= i < |pushed| ==>
                  |pushed[i].path| == |current.path| + 1 && Linked(es, current.id, pushed[i].id)
      invariant forall j :: 0 <= j < k ==>
                  out[j].dst in visited || exists i :: 0 <= i < |pushed| && pushed[i].id == out[j].dst
    {
      OutEdgesIn(es, current.id, out[k]);
      if out[k].dst !in visited {
        ExtendRoute(es, from, current, out[k]);
        ghost var before := pushed;
        pushed := pushed + [Route(out[k].dst, current.path + [out[k].dst])];
        assert Linked(es, current.id, out[k].dst);
        assert pushed[|pushed| - 1].id == out[k].dst;
        assert forall i :: 0 <= i < |before| ==> pushed[i] == before[i];
      }
    }
    forall y | Linked(es, current.id, y)
      ensures y in visited || exists i :: 0 <= i < |pushed| && pushed[i].id == y
    {
      var e :| e in es && e.src == current.id && e.dst == y;
      OutEdgesIn(es, current.id, e);
    }
  }

  /** `nodes` lists the stored ids of `path` in order: `at` are exactly their positions, increasing. */
  ghost predicate Picks(stored: set<Id>, path: seq<Id>, nodes: seq<Id>, at: seq<nat>) {
    && |at| == |nodes|
    && (forall i :: 0 <= i < |at| ==> at[i] < |path| && nodes[i] == path[at[i]] && path[at[i]] in stored)
    && (forall i, j :: 0 <= i < j < |at| ==> at[i] < at[j])
    && (forall p: nat :: p < |path| && path[p] in stored ==> p in at)
  }

  /** What the caller receives for `path`: its stored ids in order, the path itself when all are stored. */
  ghost predicate Resolved(stored: set<Id>, path: seq<Id>, nodes: seq<Id>, at: seq<nat>) {
    && Picks(stored, path, nodes, at)
    && ((forall i :: 0 <= i < |path| ==> path[i] in stored) ==> nodes == path)
  }

  /** The loop that turns a path into nodes: ids without a stored node are passed over. */
  method ResolvePath(stored: set<Id>, path: seq<Id>) returns (nodes: seq<Id>, ghost at: seq<nat>)
    ensures Resolved(stored, path, nodes, at)
    ensures forall x :: x in nodes <==> x in path && x in stored
  {
    nodes, at := [], [];
    for i := 0 to |path|
      invariant Picks(stored, path[..i], nodes, at)
      invariant (forall j :: 0 <= j < i ==> path[j] in stored) ==> nodes == path[..i]
    {
      PicksNext(stored, path, i, nodes, at);
      if path[i] in stored {
        nodes, at := nodes + [path[i]], at + [i];
      }
    }
    assert path[..|path|] == path;
    PicksStored(stored, path, nodes, at);
  }

  lemma PicksStored(stored: set<Id>, path: seq<Id>, nodes: seq<Id>, at: seq<nat>)
    requires Picks(stored, path, nodes, at)
    ensures forall x :: x in nodes <==> x in path && x in stored
  {
    forall x | x in path && x in stored ensures x in nodes {
      var p: nat :| p < |path| && path[p] == x;
      assert p in at;
      var i :| 0 <= i < |at| && at[i] == p;
      assert nodes[i] == x;
    }
  }

  lemma PicksNext(stored: set<Id>, path: seq<Id>, i: nat, nodes: seq<Id>, at: seq<nat>)
    requires i < |path| && Picks(stored, path[..i], nodes, at)
    ensures if path[i] in stored then Picks(stored, path[..i + 1], nodes + [path[i]], at + [i])
            else Picks(stored, path[..i + 1], nodes, at)
  {
    var longer := path[..i + 1];
    assert forall p: nat :: p < i ==> longer[p] == path[..i][p];
    if path[i] in stored {
      assert (at + [i])[|at|] == i;
      forall p: nat | p < |longer| && longer[p] in stored ensures p in at + [i] {
        assert p < i ==> p in at;
      }
    }
  }

  ghost predicate IsShortest(es: seq<Edge>, from: Id, to: Id, path: seq<Id>) {
    && IsWalk(es, path) && path[0] == from && path[|path| - 1] == to
    && forall p :: IsWalk(es, p) && p[0] == from && p[|p| - 1] == to ==> |path| <= |p|
  }

  ghost predicate PathInv(es: seq<Edge>, from: Id, to: Id, maxDepth: nat,
                          settled: map<Id, nat>, queue: seq<Route>, visited: set<Id>) {
    && AreRoutes(es, from, queue)
    && BreadthFirst.Inv(es, from, maxDepth, settled, Hops(queue))
    && visited == Below(settled, maxDepth) && to !in settled
  }

  lemma PathStart(es: seq<Edge>, from: Id, to: Id, maxDepth: nat)
    ensures PathInv(es, from, to, maxDepth, map[], [Route(from, [from])], {})
  {
    BreadthFirst.InitInv(es, from, maxDepth);
    HopsFront([Route(from, [from])]);
    assert Hops([Route(from, [from])]) == [(from, 0)];
  }

  /** Passing over a front entry that is visited or at the limit; `settled'` notes it if it is new. */
  lemma PathSkip(es: seq<Edge>, from: Id, to: Id, maxDepth: nat,
                 settled: map<Id, nat>, queue: seq<Route>, visited: set<Id>) returns (settled': map<Id, nat>)
    requires PathInv(es, from, to, maxDepth, settled, queue, visited) && queue != [] && queue[0].id != to
    requires queue[0].id in visited || |queue[0].path| > maxDepth
    ensures PathInv(es, from, to, maxDepth, settled', queue[1..], visited)
    ensures settled'.Keys == settled.Keys + {queue[0].id}
  {
    hide BreadthFirst.Inv;
    hide Below;
    hide Hops;
    hide IsWalk;
    var x, depth: nat := queue[0].id, |queue[0].path| - 1;
    HopsFront(queue);
    settled' := settled;
    BelowAdd(settled, x, depth, maxDepth);
    if x in settled {
      BreadthFirst.DropSettled(es, from, maxDepth, settled, Hops(queue));
    } else {
      BreadthFirst.FrontWithin(es, from, maxDepth, settled, Hops(queue));
      BreadthFirst.SettleFront(es, from, maxDepth, settled, Hops(queue), []);
      assert Hops(queue)[1..] + [] == Hops(queue[1..]);
      settled' := settled[x := depth];
    }
  }

  lemma PathFront(es: seq<Edge>, from: Id, to: Id, maxDepth: nat,
                  settled: map<Id, nat>, queue: seq<Route>, visited: set<Id>)
    requires PathInv(es, from, to, maxDepth, settled, queue, visited) && queue != []
    ensures IsRoute(es, from, queue[0])
    ensures queue[0].id in Universe(es, {from})
    ensures queue[0].id !in visited && |queue[0].path| <= maxDepth ==> queue[0].id !in settled
  {
    HopsFront(queue);
    BreadthFirst.FrontWithin(es, from, maxDepth, settled, Hops(queue));
    WithinUniverse(es, {from}, |queue[0].path| - 1);
    if queue[0].id in settled && |queue[0].path| <= maxDepth {
      SettledIsVisited(es, from, maxDepth, settled, queue);
    }
  }

  lemma PathExpand(es: seq<Edge>, from: Id, to: Id, maxDepth: nat,
                   settled: map<Id, nat>, queue: seq<Route>, visited: set<Id>, pushed: seq<Route>)
    requires PathInv(es, from, to, maxDepth, settled, queue, visited) && queue != [] && queue[0].id != to
    requires queue[0].id !in settled && queue[0].id !in visited && 0 < |queue[0].path| <= maxDepth
    requires Extensions(es, from, queue[0], visited + {queue[0].id}, pushed)
    ensures PathInv(es, from, to, maxDepth, settled[queue[0].id := |queue[0].path| - 1], queue[1..] + pushed,
                    visited + {queue[0].id})
  {
    hide BreadthFirst.Inv;
    hide BreadthFirst.Pushes;
    hide Below;
    hide Hops;
    hide IsWalk;
    var x, depth: nat := queue[0].id, |queue[0].path| - 1;
    HopsFront(queue);
    BelowAdd(settled, x, depth, maxDepth);
    HopsPushed(es, from, settled, visited + {x}, queue[0], pushed);
    BreadthFirst.SettleFront(es, from, maxDepth, settled, Hops(queue), Hops(pushed));
    HopsConcat(queue[1..], pushed);
    RoutesConcat(es, from, queue[1..], pushed);
  }

  lemma RoutesConcat(es: seq<Edge>, from: Id, a: seq<Route>, b: seq<Route>)
    requires AreRoutes(es, from, a) && AreRoutes(es, from, b)
    ensures AreRoutes(es, from, a + b)
  {
  }

  /**
   * `shortest_path` finds a directed walk with the fewest hops, or answers None exactly when no
   * walk of at most `maxDepth` hops exists. The caller receives the stored nodes of that walk in
   * order, which is the whole walk from end to end when all its ids are stored.
   */
  method ShortestPath(stored: set<Id>, es: seq<Edge>, from: Id, to: Id, maxDepth: nat)
    returns (nodes: Option<seq<Id>>, ghost path: seq<Id>, ghost at: seq<nat>)
    ensures nodes.Some? ==>
              IsShortest(es, from, to, path) && |path| - 1 <= maxDepth && Resolved(stored, path, nodes.value, at)
    ensures nodes.None? <==> NoShortWalk(es, from, to, maxDepth)
  {
    hide *;
    ghost var settled: map<Id, nat>, left := map[], Universe(es, {from});
    var queue: seq<Route>, visited: set<Id> := [Route(from, [from])], {};
    path, at := [], [];
    PathStart(es, from, to, maxDepth);
    while queue != []
      invariant PathInv(es, from, to, maxDepth, settled, queue, visited)
      invariant left == Universe(es, {from}) - settled.Keys
      decreases |left|, |queue|
    {
      var current := queue[0];
      PathFront(es, from, to, maxDepth, settled, queue, visited);
      if current.id == to {
        FrontIsShortest(es, from, to, maxDepth, settled, queue, visited);
        path := current.path;
        var found;
        found, at := ResolvePath(stored, current.path);
        return Some(found), path, at;
      }
      if current.id in visited || |current.path| > maxDepth {
        settled := PathSkip(es, from, to, maxDepth, settled, queue, visited);
        left := left - {current.id};
        queue := queue[1..];
        continue;
      }
      assert 0 < |current.path| by { RouteNonEmpty(es, from, current); }
      var pushed := ExtendRoutes(es, from, current, visited + {current.id});
      PathExpand(es, from, to, maxDepth, settled, queue, visited, pushed);
      visited := visited + {current.id};
      settled, left := settled[current.id := |current.path| - 1], left - {current.id};
      queue := queue[1..] + pushed;
    }
    NoneLeft(es, from, to, maxDepth, settled, visited);
    nodes := None;
  }

  lemma RouteNonEmpty(es: seq<Edge>, from: Id, r: Route)
    requires IsRoute(es, from, r)
    ensures 0 < |r.path|
  {
  }

  ghost predicate NoShortWalk(es: seq<Edge>, from: Id, to: Id, maxDepth: nat) {
    forall p :: IsWalk(es, p) && p[0] == from && p[|p| - 1] == to ==> |p| - 1 > maxDepth
  }

  /** Nothing at the front below the limit can have been settled without being visited. */
  lemma SettledIsVisited(es: seq<Edge>, from: Id, maxDepth: nat, settled: map<Id, nat>, queue: seq<Route>)
    requires AreRoutes(es, from, queue) && queue != []
    requires BreadthFirst.Inv(es, from, maxDepth, settled, Hops(queue))
    requires queue[0].id in settled && |queue[0].path| <= maxDepth
    ensures settled[queue[0].id] < maxDepth
  {
    assert Hops(queue)[0].1 < maxDepth;
  }

  lemma HopsPushed(es: seq<Edge>, from: Id, settled: map<Id, nat>, visited: set<Id>, current: Route, pushed: seq<Route>)
    requires |current.path| > 0 && visited <= settled.Keys + {current.id}
    requires Extensions(es, from, current, visited, pushed)
    ensures BreadthFirst.Pushes(es, current.id, |current.path| - 1, settled, Hops(pushed))
  {
    hide IsWalk;
    hide Linked;
    var hops := Hops(pushed);
    forall y | Linked(es, current.id, y) && y !in visited ensures (y, |current.path|) in hops {
      var i :| 0 <= i < |pushed| && pushed[i].id == y;
      assert hops[i] == (y, |current.path|);
    }
  }

  /** When the target reaches the front of the queue, its route is a shortest one. */
  lemma FrontIsShortest(es: seq<Edge>, from: Id, to: Id, maxDepth: nat,
                        settled: map<Id, nat>, queue: seq<Route>, visited: set<Id>)
    requires PathInv(es, from, to, maxDepth, settled, queue, visited) && queue != [] && queue[0].id == to
    ensures IsShortest(es, from, to, queue[0].path) && |queue[0].path| - 1 <= maxDepth
    ensures !NoShortWalk(es, from, to, maxDepth)
  {
    hide Within;
    hide BreadthFirst.Inv;
    var path := queue[0].path;
    HopsFront(queue);
    BreadthFirst.FrontIsNearest(es, from, maxDepth, settled, Hops(queue));
    BreadthFirst.FrontWithin(es, from, maxDepth, settled, Hops(queue));
    forall p | IsWalk(es, p) && p[0] == from && p[|p| - 1] == to ensures |path| <= |p| {
      WalkIsWithin(es, {from}, p);
      if |p| < |path| { WithinGrows(es, {from}, |p| - 1, |path| - 2); }
    }
  }

  lemma NoneLeft(es: seq<Edge>, from: Id, to: Id, maxDepth: nat, settled: map<Id, nat>, visited: set<Id>)
    requires PathInv(es, from, to, maxDepth, settled, [], visited)
    ensures NoShortWalk(es, from, to, maxDepth)
  {
    HopsConcat([], []);
    forall p | IsWalk(es, p) && p[0] == from && p[|p| - 1] == to ensures |p| - 1 > maxDepth {
      WalkIsWithin(es, {from}, p);
      if |p| - 1 <= maxDepth {
        WithinGrows(es, {from}, |p| - 1, maxDepth);
        BreadthFirst.Covered(es, from, maxDepth, settled, [], maxDepth, to);
      }
    }
  }
}
