/**
 * `parallel_traverse` of src/storage/parallel.rs as an interleaving protocol: one task per start
 * id, each with its own queue, all sharing one visited set. A step is what one task does between
 * two accesses to shared state: take an entry from its queue and claim the id under the write
 * lock, or look at one edge under the read lock, or merge its results at the end.
 */
module Parallel {
  import opened Graph

  datatype Config = Config(stored: set<Id>, edges: seq<Edge>, filter: Filter, starts: seq<Id>, maxDepth: nat) {
    ghost function Es(): seq<Edge> { Allowed(edges, filter) }
    ghost function Starts(): set<Id> { set x | x in starts }
    ghost predicate Ok() { Distinct(edges) }
  }

  /**
   * `claimed` is the task's own visited list, `pending` the edges of its last claim still to be
   * looked at; `listed` and `done` say that its nodes, and then its edges, have been merged.
   */
  datatype Task = Task(queue: seq<(Id, nat)>, pending: seq<Edge>, depth: nat,
                       claimed: seq<Id>, edges: seq<Edge>, listed: bool, done: bool)

  /** The visited set, with the depth at which each id was claimed, and the merged results. */
  datatype State = State(visited: map<Id, nat>, tasks: seq<Task>, nodes: seq<Id>, edges: seq<Edge>)

  function InStore(stored: set<Id>, ids: seq<Id>): seq<Id> {
    if ids == [] then []
    else (if ids[0] in stored then [ids[0]] else []) + InStore(stored, ids[1..])
  }

  ghost predicate Init(c: Config, s: State) {
    && s.visited == map[] && s.nodes == [] && s.edges == []
    && |s.tasks| == |c.starts|
    && forall i :: 0 <= i < |s.tasks| ==> s.tasks[i] == Task([(c.starts[i], 0)], [], 0, [], [], false, false)
  }

  ghost predicate SkipStep(c: Config, s: State, s': State, i: nat) {
    && i < |s.tasks|
    && var t := s.tasks[i];
       && t.pending == [] && t.queue != [] && t.queue[0].0 in s.visited
       && s' == s.(tasks := s.tasks[i := t.(queue := t.queue[1..])])
  }

  ghost predicate ClaimStep(c: Config, s: State, s': State, i: nat) {
    && i < |s.tasks|
    && var t := s.tasks[i];
       && t.pending == [] && t.queue != [] && t.queue[0].0 !in s.visited
       && var (id, d) := t.queue[0];
          var out := if d >= c.maxDepth then [] else OutEdges(c.edges, id);
          s' == s.(visited := s.visited[id := d],
                   tasks := s.tasks[i := t.(queue := t.queue[1..], pending := out, depth := d,
                     claimed := t.claimed + [id])])
  }

  ghost predicate EdgeStep(c: Config, s: State, s': State, i: nat) {
    && i < |s.tasks|
    && var t := s.tasks[i];
       && t.pending != []
       && var e := t.pending[0];
          var t1 := t.(pending := t.pending[1..]);
          s' == s.(tasks := s.tasks[i :=
                     if !c.filter.Allows(e) then t1
                     else t1.(queue := if e.dst in s.visited then t.queue else t.queue + [(e.dst, t.depth + 1)],
                              edges := t.edges + [e])])
  }

  /** The two merges at the end, each under its own lock: first the nodes, then the edges. */
  ghost predicate ListStep(c: Config, s: State, s': State, i: nat) {
    && i < |s.tasks|
    && var t := s.tasks[i];
       && t.pending == [] && t.queue == [] && !t.listed
       && s' == s.(tasks := s.tasks[i := t.(listed := true)], nodes := s.nodes + InStore(c.stored, t.claimed))
  }

  ghost predicate FinishStep(c: Config, s: State, s': State, i: nat) {
    && i < |s.tasks|
    && var t := s.tasks[i];
       && t.listed && !t.done
       && s' == s.(tasks := s.tasks[i := t.(done := true)], edges := s.edges + t.edges)
  }

  ghost predicate TaskStep(c: Config, s: State, s': State, i: nat) {
    || SkipStep(c, s, s', i) || ClaimStep(c, s, s', i) || EdgeStep(c, s, s', i)
    || ListStep(c, s, s', i) || FinishStep(c, s, s', i)
  }

  ghost predicate Next(c: Config, s: State, s': State) {
    exists i: nat :: TaskStep(c, s, s', i)
  }

  ghost predicate IsRun(c: Config, run: seq<State>) {
    && |run| > 0 && Init(c, run[0])
    && forall k :: 0 <= k < |run| - 1 ==> Next(c, run[k], run[k + 1])
  }

  // ---------- the invariant ----------

  /** Some id has been claimed one level above depth `d`. */
  ghost predicate HasLevel(visited: map<Id, nat>, d: nat) {
    d > 0 ==> exists x :: x in visited && visited[x] == d - 1
  }

  ghost predicate QueueOk(c: Config, visited: map<Id, nat>, queue: seq<(Id, nat)>) {
    forall k :: 0 <= k < |queue| ==>
      && queue[k].1 <= c.maxDepth && queue[k].0 in Within(c.Es(), c.Starts(), queue[k].1)
      && HasLevel(visited, queue[k].1)
  }

  ghost predicate PendingOk(c: Config, visited: map<Id, nat>, pending: seq<Edge>, depth: nat) {
    forall k :: 0 <= k < |pending| ==>
      && pending[k] in c.edges && depth < c.maxDepth
      && pending[k].src in visited && visited[pending[k].src] == depth
  }

  /** The edges a task has listed or still holds are the allowed out-edges of its expanded claims, each once. */
  ghost predicate EdgesOk(c: Config, visited: map<Id, nat>, claimed: seq<Id>, edges: seq<Edge>) {
    && Distinct(edges)
    && forall e :: e in edges <==> e in c.Es() && e.src in claimed && e.src in visited && visited[e.src] < c.maxDepth
  }

  ghost predicate TaskOk(c: Config, visited: map<Id, nat>, t: Task) {
    && QueueOk(c, visited, t.queue)
    && PendingOk(c, visited, t.pending, t.depth)
    && EdgesOk(c, visited, t.claimed, t.edges + Allowed(t.pending, c.filter))
    && Distinct(t.claimed) && (forall x :: x in t.claimed ==> x in visited)
    && (t.listed ==> t.queue == [] && t.pending == []) && (t.done ==> t.listed)
  }

  ghost predicate VisitedOk(c: Config, visited: map<Id, nat>) {
    forall x :: x in visited ==>
      && visited[x] <= c.maxDepth && x in Within(c.Es(), c.Starts(), visited[x]) && HasLevel(visited, visited[x])
  }

  /** No id is claimed by two tasks, and every visited id is claimed by one. */
  ghost predicate ClaimsOk(s: State) {
    && (forall i, j, x :: 0 <= i < j < |s.tasks| && x in s.tasks[i].claimed ==> x !in s.tasks[j].claimed)
    && (forall x :: x in s.visited ==> exists i :: 0 <= i < |s.tasks| && x in s.tasks[i].claimed)
  }

  ghost predicate Queued(q: seq<(Id, nat)>, x: Id) {
    exists k :: 0 <= k < |q| && q[k].0 == x
  }

  /** An id is accounted for: visited, or waiting in some task's queue. */
  ghost predicate Awaited(s: State, x: Id) {
    x in s.visited || exists i :: 0 <= i < |s.tasks| && Queued(s.tasks[i].queue, x)
  }

  ghost predicate CoverOk(c: Config, s: State) {
    && (forall x :: x in c.Starts() ==> Awaited(s, x))
    && (forall i, e :: 0 <= i < |s.tasks| && e in s.tasks[i].edges ==> Awaited(s, e.dst))
  }

  /** The merged lists hold the results of the finished tasks, each once. */
  ghost predicate MergedOk(c: Config, s: State) {
    && Distinct(s.nodes) && Distinct(s.edges)
    && (forall x :: x in s.nodes ==> exists i :: 0 <= i < |s.tasks| && s.tasks[i].listed && x in s.tasks[i].claimed)
    && (forall i, x :: 0 <= i < |s.tasks| && s.tasks[i].listed && x in s.tasks[i].claimed && x in c.stored ==>
      x in s.nodes)
    && (forall x :: x in s.nodes ==> x in c.stored)
    && (forall e :: e in s.edges ==> exists i :: 0 <= i < |s.tasks| && s.tasks[i].done && e in s.tasks[i].edges)
    && (forall i, e :: 0 <= i < |s.tasks| && s.tasks[i].done && e in s.tasks[i].edges ==> e in s.edges)
  }

  ghost predicate TasksOk(c: Config, s: State) {
    forall i :: 0 <= i < |s.tasks| ==> TaskOk(c, s.visited, s.tasks[i])
  }

  ghost predicate Inv(c: Config, s: State) {
    VisitedOk(c, s.visited) && TasksOk(c, s) && ClaimsOk(s) && CoverOk(c, s) && MergedOk(c, s)
  }

  lemma InitInv(c: Config, s: State)
    requires Init(c, s)
    ensures Inv(c, s)
  {
    forall x | x in c.Starts() ensures Awaited(s, x) {
      var i :| 0 <= i < |c.starts| && c.starts[i] == x;
      assert s.tasks[i].queue[0].0 == x;
      assert Queued(s.tasks[i].queue, x);
    }
  }

  // ---------- each kind of step keeps it ----------

  /** Awaited ids stay awaited when one task's queue loses only visited entries. */
  lemma AwaitedKept(s: State, s': State, i: nat, x: Id)
    requires i < |s.tasks| && |s'.tasks| == |s.tasks| && s.visited.Keys <= s'.visited.Keys
    requires forall j :: 0 <= j < |s.tasks| && j != i ==> s'.tasks[j].queue == s.tasks[j].queue
    requires forall y :: Queued(s.tasks[i].queue, y) ==> Queued(s'.tasks[i].queue, y) || y in s'.visited
    requires Awaited(s, x)
    ensures Awaited(s', x)
  {
    if x !in s.visited {
      var j :| 0 <= j < |s.tasks| && Queued(s.tasks[j].queue, x);
      if j != i { assert Queued(s'.tasks[j].queue, x); }
    }
  }

  lemma QueueTail(q: seq<(Id, nat)>, x: Id)
    requires q != [] && Queued(q, x)
    ensures x == q[0].0 || Queued(q[1..], x)
  {
    var k :| 0 <= k < |q| && q[k].0 == x;
    if k > 0 { assert q[1..][k - 1].0 == x; }
  }

  lemma SkippedTask(c: Config, visited: map<Id, nat>, t: Task)
    requires TaskOk(c, visited, t) && t.queue != []
    ensures TaskOk(c, visited, t.(queue := t.queue[1..]))
  {
    hide Within, Distinct, EdgesOk, HasLevel;
    assert forall k :: 0 <= k < |t.queue| - 1 ==> t.queue[1..][k] == t.queue[k + 1];
  }

  lemma SkipKeeps(c: Config, s: State, s': State, i: nat)
    requires Inv(c, s) && SkipStep(c, s, s', i)
    ensures Inv(c, s')
  {
    hide TaskOk, VisitedOk, ClaimsOk, MergedOk;
    var t, t' := s.tasks[i], s'.tasks[i];
    assert TaskOk(c, s.visited, t);
    SkippedTask(c, s.visited, t);
    forall y | Queued(t.queue, y) ensures Queued(t'.queue, y) || y in s'.visited { QueueTail(t.queue, y); }
    forall x | Awaited(s, x) ensures Awaited(s', x) { AwaitedKept(s, s', i, x); }
    SameResults(c, s, s', i);
  }

  /** Claims and merged results only depend on the lists the tasks hold and on which are done. */
  lemma SameResults(c: Config, s: State, s': State, i: nat)
    requires i < |s.tasks| && ClaimsOk(s) && MergedOk(c, s)
    requires s'.visited == s.visited && s'.nodes == s.nodes && s'.edges == s.edges
    requires |s'.tasks| == |s.tasks| && s'.tasks == s.tasks[i := s'.tasks[i]]
    requires s'.tasks[i].claimed == s.tasks[i].claimed
    requires s'.tasks[i].listed == s.tasks[i].listed && s'.tasks[i].done == s.tasks[i].done
    requires s.tasks[i].done ==> s'.tasks[i].edges == s.tasks[i].edges
    ensures ClaimsOk(s') && MergedOk(c, s')
  {
    hide Distinct;
    forall j | 0 <= j < |s.tasks|
      ensures s'.tasks[j].claimed == s.tasks[j].claimed
      ensures s'.tasks[j].listed == s.tasks[j].listed && s'.tasks[j].done == s.tasks[j].done
      ensures s.tasks[j].done ==> s'.tasks[j].edges == s.tasks[j].edges
    {
    }
    forall x | x in s'.visited ensures exists j :: 0 <= j < |s'.tasks| && x in s'.tasks[j].claimed {
      var j :| 0 <= j < |s.tasks| && x in s.tasks[j].claimed;
      assert x in s'.tasks[j].claimed;
    }
    forall x | x in s'.nodes ensures exists j :: 0 <= j < |s'.tasks| && s'.tasks[j].listed && x in s'.tasks[j].claimed {
      var j :| 0 <= j < |s.tasks| && s.tasks[j].listed && x in s.tasks[j].claimed;
      assert x in s'.tasks[j].claimed;
    }
    forall e | e in s'.edges ensures exists j :: 0 <= j < |s'.tasks| && s'.tasks[j].done && e in s'.tasks[j].edges {
      var j :| 0 <= j < |s.tasks| && s.tasks[j].done && e in s.tasks[j].edges;
      assert e in s'.tasks[j].edges;
    }
  }

  // claiming

  lemma LevelsGrow(visited: map<Id, nat>, id: Id, d: nat, k: nat)
    requires id !in visited && HasLevel(visited, k)
    ensures HasLevel(visited[id := d], k)
  {
    if k > 0 {
      var x :| x in visited && visited[x] == k - 1;
      assert visited[id := d][x] == k - 1;
    }
  }

  /** A claim made elsewhere does not disturb a task. */
  lemma OtherTaskOk(c: Config, visited: map<Id, nat>, id: Id, d: nat, t: Task)
    requires TaskOk(c, visited, t) && id !in visited
    ensures TaskOk(c, visited[id := d], t)
  {
    hide Within;
    hide Distinct;
    hide HasLevel;
    forall k | 0 <= k < |t.queue| ensures HasLevel(visited[id := d], t.queue[k].1) {
      LevelsGrow(visited, id, d, t.queue[k].1);
    }
  }

  /** The claiming task lists, from now on, the allowed out-edges of the id too. */
  lemma ClaimedEdges(c: Config, visited: map<Id, nat>, claimed: seq<Id>, edges: seq<Edge>, id: Id, d: nat)
    requires c.Ok() && EdgesOk(c, visited, claimed, edges) && id !in visited && id !in claimed
    ensures var out := if d >= c.maxDepth then [] else OutEdges(c.edges, id);
            EdgesOk(c, visited[id := d], claimed + [id], edges + Allowed(out, c.filter))
  {
    var out := if d >= c.maxDepth then [] else OutEdges(c.edges, id);
    var kept := Allowed(out, c.filter);
    forall e ensures e in kept <==> d < c.maxDepth && e in c.Es() && e.src == id {
      AllowedIn(c.edges, c.filter, e);
      OutEdgesIn(c.edges, id, e);
      AllowedIn(out, c.filter, e);
    }
    OutEdgesDistinct(c.edges, id);
    AllowedDistinct(out, c.filter);
    hide Allowed;
    hide Distinct;
    DistinctConcat(edges, kept);
  }

  lemma ClaimedTask(c: Config, visited: map<Id, nat>, t: Task, t': Task, id: Id, d: nat)
    requires c.Ok() && TaskOk(c, visited, t) && !t.listed && id !in visited
    requires t.pending == [] && t.queue != [] && t.queue[0] == (id, d)
    requires t' == t.(queue := t.queue[1..], pending := if d >= c.maxDepth then [] else OutEdges(c.edges, id),
                      depth := d, claimed := t.claimed + [id])
    ensures TaskOk(c, visited[id := d], t')
  {
    hide Within;
    hide HasLevel;
    var out := t'.pending;
    forall k | 0 <= k < |t'.queue| ensures HasLevel(visited[id := d], t'.queue[k].1) {
      assert t'.queue[k] == t.queue[k + 1];
      LevelsGrow(visited, id, d, t'.queue[k].1);
    }
    forall k | 0 <= k < |out| ensures out[k] in c.edges && out[k].src == id {
      OutEdgesIn(c.edges, id, out[k]);
    }
    assert t.edges + Allowed([], c.filter) == t.edges;
    ClaimedEdges(c, visited, t.claimed, t.edges, id, d);
  }

  lemma ClaimKeeps(c: Config, s: State, s': State, i: nat)
    requires c.Ok() && Inv(c, s) && ClaimStep(c, s, s', i)
    ensures Inv(c, s')
  {
    hide Within;
    hide Distinct;
    hide HasLevel;
    hide EdgesOk;
    hide OutEdges;
    hide Allowed;
    var t, t' := s.tasks[i], s'.tasks[i];
    var (id, d) := t.queue[0];
    assert TaskOk(c, s.visited, t) && !t.listed;
    ClaimedTask(c, s.visited, t, t', id, d);
    forall j | 0 <= j < |s'.tasks| ensures TaskOk(c, s'.visited, s'.tasks[j]) {
      if j != i { OtherTaskOk(c, s.visited, id, d, s.tasks[j]); }
    }
    ClaimVisited(c, s.visited, id, d);
    forall j | 0 <= j < |s.tasks| ensures id !in s.tasks[j].claimed { assert TaskOk(c, s.visited, s.tasks[j]); }
    hide TaskOk;
    hide VisitedOk;
    forall y | Queued(t.queue, y) ensures Queued(t'.queue, y) || y in s'.visited { QueueTail(t.queue, y); }
    forall x | Awaited(s, x) ensures Awaited(s', x) { AwaitedKept(s, s', i, x); }
    hide Awaited;
    ClaimResults(c, s, s', i);
  }

  lemma ClaimVisited(c: Config, visited: map<Id, nat>, id: Id, d: nat)
    requires VisitedOk(c, visited) && id !in visited
    requires d <= c.maxDepth && id in Within(c.Es(), c.Starts(), d) && HasLevel(visited, d)
    ensures VisitedOk(c, visited[id := d])
  {
    hide Within;
    hide HasLevel;
    var visited' := visited[id := d];
    forall x | x in visited' ensures HasLevel(visited', visited'[x]) {
      LevelsGrow(visited, id, d, visited'[x]);
    }
  }

  lemma ClaimResults(c: Config, s: State, s': State, i: nat)
    requires ClaimsOk(s) && MergedOk(c, s) && ClaimStep(c, s, s', i) && !s.tasks[i].done && !s.tasks[i].listed
    requires forall j :: 0 <= j < |s.tasks| ==> s.tasks[i].queue[0].0 !in s.tasks[j].claimed
    ensures ClaimsOk(s') && MergedOk(c, s')
  {
    ClaimClaims(c, s, s', i);
    ClaimMerged(c, s, s', i);
  }

  lemma ClaimClaims(c: Config, s: State, s': State, i: nat)
    requires ClaimsOk(s) && ClaimStep(c, s, s', i) && !s.tasks[i].done && !s.tasks[i].listed
    requires forall j :: 0 <= j < |s.tasks| ==> s.tasks[i].queue[0].0 !in s.tasks[j].claimed
    ensures ClaimsOk(s')
  {
    hide OutEdges;
    var id := s.tasks[i].queue[0].0;
    forall j | 0 <= j < |s.tasks| && j != i ensures s'.tasks[j] == s.tasks[j] {}
    assert s'.tasks[i].claimed == s.tasks[i].claimed + [id];
    forall x | x in s'.visited ensures exists j :: 0 <= j < |s'.tasks| && x in s'.tasks[j].claimed {
      if x == id {
        assert x in s'.tasks[i].claimed;
      } else {
        var j :| 0 <= j < |s.tasks| && x in s.tasks[j].claimed;
        assert x in s'.tasks[j].claimed;
      }
    }
  }

  lemma ClaimMerged(c: Config, s: State, s': State, i: nat)
    requires MergedOk(c, s) && ClaimStep(c, s, s', i) && !s.tasks[i].done && !s.tasks[i].listed
    ensures MergedOk(c, s')
  {
    hide Distinct;
    hide OutEdges;
    forall j | 0 <= j < |s.tasks| && j != i ensures s'.tasks[j] == s.tasks[j] {}
    forall x | x in s'.nodes ensures exists j :: 0 <= j < |s'.tasks| && s'.tasks[j].listed && x in s'.tasks[j].claimed {
      var j :| 0 <= j < |s.tasks| && s.tasks[j].listed && x in s.tasks[j].claimed;
      assert s'.tasks[j].listed && x in s'.tasks[j].claimed;
    }
    forall e | e in s'.edges ensures exists j :: 0 <= j < |s'.tasks| && s'.tasks[j].done && e in s'.tasks[j].edges {
      var j :| 0 <= j < |s.tasks| && s.tasks[j].done && e in s.tasks[j].edges;
      assert s'.tasks[j].done && e in s'.tasks[j].edges;
    }
  }

  // looking at an edge

  lemma EdgeTask(c: Config, visited: map<Id, nat>, t: Task, t': Task)
    requires VisitedOk(c, visited) && TaskOk(c, visited, t) && t.pending != []
    requires var e := t.pending[0];
             t' == if !c.filter.Allows(e) then t.(pending := t.pending[1..])
                   else t.(pending := t.pending[1..], edges := t.edges + [e],
                           queue := if e.dst in visited then t.queue else t.queue + [(e.dst, t.depth + 1)])
    ensures TaskOk(c, visited, t') && !t.listed && !t.done
  {
    hide Distinct;
    hide EdgesOk;
    hide Within;
    var e := t.pending[0];
    assert t.pending == [e] + t.pending[1..];
    assert t'.edges + Allowed(t'.pending, c.filter) == t.edges + Allowed(t.pending, c.filter);
    hide Allowed;
    forall k | 0 <= k < |t'.pending| ensures t'.pending[k] == t.pending[k + 1] {}
    if c.filter.Allows(e) && e.dst !in visited {
      PushedEntry(c, visited, t, e);
    }
  }

  /** The entry an edge pushes is one hop further than its source. */
  lemma PushedEntry(c: Config, visited: map<Id, nat>, t: Task, e: Edge)
    requires VisitedOk(c, visited) && TaskOk(c, visited, t)
    requires t.pending != [] && e == t.pending[0] && c.filter.Allows(e)
    ensures QueueOk(c, visited, t.queue + [(e.dst, t.depth + 1)])
  {
    hide Distinct;
    hide EdgesOk;
    assert e in c.edges && visited[e.src] == t.depth;
    AllowedIn(c.edges, c.filter, e);
    WithinStep(c.Es(), c.Starts(), t.depth, e);
    assert HasLevel(visited, t.depth + 1);
    hide HasLevel;
    hide Within;
  }

  lemma EdgeKeeps(c: Config, s: State, s': State, i: nat)
    requires Inv(c, s) && EdgeStep(c, s, s', i)
    ensures Inv(c, s')
  {
    hide TaskOk;
    hide ClaimsOk;
    hide MergedOk;
    hide Distinct;
    var t, t' := s.tasks[i], s'.tasks[i];
    var e := t.pending[0];
    assert TaskOk(c, s.visited, t);
    EdgeTask(c, s.visited, t, t');
    SameResults(c, s, s', i);
    EdgeCover(c, s, s', i);
  }

  lemma EdgeCover(c: Config, s: State, s': State, i: nat)
    requires CoverOk(c, s) && EdgeStep(c, s, s', i)
    ensures CoverOk(c, s')
  {
    var t, t' := s.tasks[i], s'.tasks[i];
    var e := t.pending[0];
    forall y | Queued(t.queue, y) ensures Queued(t'.queue, y) {
      var k :| 0 <= k < |t.queue| && t.queue[k].0 == y;
      assert t'.queue[k].0 == y;
    }
    forall x | Awaited(s, x) ensures Awaited(s', x) { AwaitedKept(s, s', i, x); }
    if c.filter.Allows(e) && e.dst !in s.visited {
      assert t'.queue[|t.queue|].0 == e.dst;
      assert Queued(t'.queue, e.dst);
    }
    assert c.filter.Allows(e) ==> Awaited(s', e.dst);
    hide Awaited;
    forall j, f | 0 <= j < |s'.tasks| && f in s'.tasks[j].edges ensures Awaited(s', f.dst) {
      if j == i && f !in t.edges { assert f == e; }
    }
  }

  // merging

  lemma {:induction false} InStoreIs(stored: set<Id>, ids: seq<Id>)
    requires Distinct(ids)
    ensures Distinct(InStore(stored, ids))
    ensures forall x :: x in InStore(stored, ids) <==> x in ids && x in stored
  {
    if ids != [] {
      InStoreIs(stored, ids[1..]);
      assert ids == [ids[0]] + ids[1..];
      assert ids[0] !in ids[1..];
    }
  }

  lemma ListKeeps(c: Config, s: State, s': State, i: nat)
    requires Inv(c, s) && ListStep(c, s, s', i)
    ensures Inv(c, s')
  {
    hide Within;
    hide Distinct;
    hide EdgesOk;
    var t, t' := s.tasks[i], s'.tasks[i];
    assert TaskOk(c, s.visited, t);
    assert TaskOk(c, s'.visited, t');
    forall x | Awaited(s, x) ensures Awaited(s', x) { AwaitedKept(s, s', i, x); }
    hide Awaited;
    ListResults(c, s, s', i);
  }

  lemma FinishKeeps(c: Config, s: State, s': State, i: nat)
    requires Inv(c, s) && FinishStep(c, s, s', i)
    ensures Inv(c, s')
  {
    hide Within;
    hide Distinct;
    hide EdgesOk;
    var t, t' := s.tasks[i], s'.tasks[i];
    assert TaskOk(c, s.visited, t);
    assert TaskOk(c, s'.visited, t');
    forall x | Awaited(s, x) ensures Awaited(s', x) { AwaitedKept(s, s', i, x); }
    hide Awaited;
    FinishResults(c, s, s', i);
  }

  lemma OwnEdges(c: Config, s: State, i: nat, e: Edge)
    requires TasksOk(c, s) && i < |s.tasks| && e in s.tasks[i].edges
    ensures e.src in s.tasks[i].claimed
  {
    var t := s.tasks[i];
    assert EdgesOk(c, s.visited, t.claimed, t.edges + Allowed(t.pending, c.filter));
    assert e in t.edges + Allowed(t.pending, c.filter);
  }

  lemma ListResults(c: Config, s: State, s': State, i: nat)
    requires TasksOk(c, s) && ClaimsOk(s) && MergedOk(c, s) && ListStep(c, s, s', i)
    ensures ClaimsOk(s') && MergedOk(c, s')
  {
    var t, more := s.tasks[i], InStore(c.stored, s.tasks[i].claimed);
    assert TaskOk(c, s.visited, t);
    InStoreIs(c.stored, t.claimed);
    hide InStore;
    hide Distinct;
    forall x | x in s.nodes ensures x !in more {
      var j :| 0 <= j < |s.tasks| && s.tasks[j].listed && x in s.tasks[j].claimed;
    }
    DistinctConcat(s.nodes, more);
    SameClaims(s, s', i);
    ListMerged(c, s, s', i, more);
  }

  lemma ListMerged(c: Config, s: State, s': State, i: nat, more: seq<Id>)
    requires i < |s.tasks| && MergedOk(c, s) && Distinct(s.nodes + more)
    requires forall x :: x in more <==> x in s.tasks[i].claimed && x in c.stored
    requires s' == s.(tasks := s.tasks[i := s.tasks[i].(listed := true)], nodes := s.nodes + more)
    ensures MergedOk(c, s')
  {
    hide Distinct;
    forall x | x in s'.nodes ensures exists j :: 0 <= j < |s'.tasks| && s'.tasks[j].listed && x in s'.tasks[j].claimed {
      if x in more {
        assert x in s'.tasks[i].claimed;
      } else {
        var j :| 0 <= j < |s.tasks| && s.tasks[j].listed && x in s.tasks[j].claimed;
        assert x in s'.tasks[j].claimed;
      }
    }
    forall e | e in s'.edges ensures exists j :: 0 <= j < |s'.tasks| && s'.tasks[j].done && e in s'.tasks[j].edges {
      var j :| 0 <= j < |s.tasks| && s.tasks[j].done && e in s.tasks[j].edges;
      assert e in s'.tasks[j].edges;
    }
  }

  lemma SameClaims(s: State, s': State, i: nat)
    requires i < |s.tasks| && ClaimsOk(s) && s'.visited == s.visited
    requires |s'.tasks| == |s.tasks| && s'.tasks == s.tasks[i := s'.tasks[i]] &&
      s'.tasks[i].claimed == s.tasks[i].claimed
    ensures ClaimsOk(s')
  {
    assert forall j :: 0 <= j < |s.tasks| ==> s'.tasks[j].claimed == s.tasks[j].claimed;
    forall x | x in s'.visited ensures exists j :: 0 <= j < |s'.tasks| && x in s'.tasks[j].claimed {
      var j :| 0 <= j < |s.tasks| && x in s.tasks[j].claimed;
      assert x in s'.tasks[j].claimed;
    }
  }

  lemma FinishDistinct(c: Config, s: State, i: nat)
    requires TasksOk(c, s) && ClaimsOk(s) && MergedOk(c, s) && i < |s.tasks| && s.tasks[i].listed && !s.tasks[i].done
    ensures Distinct(s.edges + s.tasks[i].edges)
  {
    var t := s.tasks[i];
    assert TaskOk(c, s.visited, t);
    assert t.edges + Allowed(t.pending, c.filter) == t.edges;
    hide Distinct;
    forall e | e in s.edges ensures e !in t.edges {
      var j :| 0 <= j < |s.tasks| && s.tasks[j].done && e in s.tasks[j].edges;
      OwnEdges(c, s, j, e);
      if e in t.edges { OwnEdges(c, s, i, e); }
    }
    DistinctConcat(s.edges, t.edges);
  }

  lemma FinishResults(c: Config, s: State, s': State, i: nat)
    requires TasksOk(c, s) && ClaimsOk(s) && MergedOk(c, s) && FinishStep(c, s, s', i)
    ensures ClaimsOk(s') && MergedOk(c, s')
  {
    hide Distinct, TasksOk;
    var t := s.tasks[i];
    FinishDistinct(c, s, i);
    SameClaims(s, s', i);
    forall x | x in s'.nodes ensures exists j :: 0 <= j < |s'.tasks| && s'.tasks[j].listed && x in s'.tasks[j].claimed {
      var j :| 0 <= j < |s.tasks| && s.tasks[j].listed && x in s.tasks[j].claimed;
      assert x in s'.tasks[j].claimed;
    }
    forall e | e in s'.edges ensures exists j :: 0 <= j < |s'.tasks| && s'.tasks[j].done && e in s'.tasks[j].edges {
      if e in t.edges {
        assert e in s'.tasks[i].edges;
      } else {
        var j :| 0 <= j < |s.tasks| && s.tasks[j].done && e in s.tasks[j].edges;
        assert e in s'.tasks[j].edges;
      }
    }
  }

  lemma NextKeeps(c: Config, s: State, s': State)
    requires c.Ok() && Inv(c, s) && Next(c, s, s')
    ensures Inv(c, s')
  {
    hide Inv;
    var i: nat :| TaskStep(c, s, s', i);
    if SkipStep(c, s, s', i) {
      SkipKeeps(c, s, s', i);
    } else if ClaimStep(c, s, s', i) {
      ClaimKeeps(c, s, s', i);
    } else if EdgeStep(c, s, s', i) {
      EdgeKeeps(c, s, s', i);
    } else if ListStep(c, s, s', i) {
      ListKeeps(c, s, s', i);
    } else {
      FinishKeeps(c, s, s', i);
    }
  }

  lemma {:induction false} RunInv(c: Config, run: seq<State>, k: nat)
    requires c.Ok() && IsRun(c, run) && k < |run|
    ensures Inv(c, run[k])
  {
    hide Inv;
    hide Next;
    if k == 0 {
      InitInv(c, run[0]);
    } else {
      RunInv(c, run, k - 1);
      assert Next(c, run[k - 1], run[k - 1 + 1]);
      NextKeeps(c, run[k - 1], run[k]);
    }
  }

  // ---------- what holds under every schedule ----------

  /** No id is ever claimed twice, by one task or by two, and no claim lies beyond the depth limit. */
  lemma ClaimedOnceAndNear(c: Config, run: seq<State>, k: nat)
    requires c.Ok() && IsRun(c, run) && k < |run|
    ensures var ts := run[k].tasks;
            && (forall i, a, j, b | 0 <= i < |ts| && 0 <= a < |ts[i].claimed| && 0 <= j < |ts| &&
              0 <= b < |ts[j].claimed| ::
                  ts[i].claimed[a] == ts[j].claimed[b] ==> i == j && a == b)
            && (forall i, x :: 0 <= i < |ts| && x in ts[i].claimed ==> x in Within(c.Es(), c.Starts(), c.maxDepth))
  {
    RunInv(c, run, k);
    var s := run[k];
    hide IsRun;
    hide Within;
    forall i, x | 0 <= i < |s.tasks| && x in s.tasks[i].claimed
      ensures x in Within(c.Es(), c.Starts(), c.maxDepth)
    {
      assert TaskOk(c, s.visited, s.tasks[i]);
      WithinGrows(c.Es(), c.Starts(), s.visited[x], c.maxDepth);
    }
    forall i, a, j, b | 0 <= i < |s.tasks| && 0 <= a < |s.tasks[i].claimed| && 0 <= j < |s.tasks| &&
      0 <= b < |s.tasks[j].claimed|
      && s.tasks[i].claimed[a] == s.tasks[j].claimed[b]
      ensures i == j && a == b
    {
      var x := s.tasks[i].claimed[a];
      assert x in s.tasks[i].claimed && x in s.tasks[j].claimed;
      assert i == j;
      assert TaskOk(c, s.visited, s.tasks[i]);
      assert Distinct(s.tasks[i].claimed);
    }
  }

  /** Everything the starts lead to, at any distance. */
  ghost function Reachable(c: Config): set<Id> {
    set x | x in Universe(c.Es(), c.Starts()) && exists k: nat :: x in Within(c.Es(), c.Starts(), k)
  }

  lemma WithinReachable(c: Config, k: nat)
    ensures Within(c.Es(), c.Starts(), k) <= Reachable(c)
  {
    WithinUniverse(c.Es(), c.Starts(), k);
  }

  /** An id claimed at depth d stands on a chain of d + 1 distinct claimed ids. */
  lemma {:induction false} LevelChain(c: Config, visited: map<Id, nat>, x: Id) returns (chain: set<Id>)
    requires VisitedOk(c, visited) && x in visited
    ensures chain <= visited.Keys && |chain| == visited[x] + 1
    ensures forall y :: y in chain ==> visited[y] <= visited[x]
    decreases visited[x]
  {
    hide Within;
    if visited[x] == 0 {
      chain := {x};
    } else {
      assert HasLevel(visited, visited[x]);
      var y :| y in visited && visited[y] == visited[x] - 1;
      var rest := LevelChain(c, visited, y);
      assert x !in rest;
      chain := rest + {x};
    }
  }

  lemma SubsetCard(a: set<Id>, b: set<Id>)
    requires a <= b
    ensures |a| <= |b|
  {
    assert b == a + (b - a);
  }

  lemma VisitedReachable(c: Config, visited: map<Id, nat>)
    requires VisitedOk(c, visited)
    ensures visited.Keys <= Reachable(c)
  {
    forall y | y in visited ensures y in Reachable(c) { WithinReachable(c, visited[y]); }
  }

  /** No claim has been stopped by the limit. */
  ghost predicate BelowLimit(c: Config, visited: map<Id, nat>) {
    forall x :: x in visited ==> visited[x] < c.maxDepth
  }

  /** With a limit no smaller than the number of reachable ids, no claim is ever stopped by the limit. */
  lemma NeverAtLimit(c: Config, visited: map<Id, nat>)
    requires VisitedOk(c, visited) && |Reachable(c)| <= c.maxDepth
    ensures BelowLimit(c, visited)
  {
    VisitedReachable(c, visited);
    forall x | x in visited ensures visited[x] < c.maxDepth {
      var chain := LevelChain(c, visited, x);
      SubsetCard(chain, Reachable(c));
    }
  }

  /** With one more reachable id, a claim stopped by the limit leaves nothing unclaimed. */
  lemma AtLimitIsAll(c: Config, visited: map<Id, nat>, x: Id)
    requires VisitedOk(c, visited) && x in visited && visited[x] == c.maxDepth && |Reachable(c)| <= c.maxDepth + 1
    ensures visited.Keys == Reachable(c)
  {
    VisitedReachable(c, visited);
    var all := Reachable(c);
    var chain := LevelChain(c, visited, x);
    assert |all| == |chain| + |all - chain| by { assert all == chain + (all - chain); }
  }

  ghost predicate AllDone(s: State) {
    forall i :: 0 <= i < |s.tasks| ==> s.tasks[i].done
  }

  lemma DoneAwaited(c: Config, s: State, x: Id)
    requires TasksOk(c, s) && AllDone(s) && Awaited(s, x)
    ensures x in s.visited
  {
    hide Within;
    forall i | 0 <= i < |s.tasks| ensures !Queued(s.tasks[i].queue, x) {
      assert TaskOk(c, s.visited, s.tasks[i]);
    }
  }

  /** When all tasks have finished, an allowed edge out of an expanded id has been listed by one of them. */
  lemma DoneEdge(c: Config, s: State, e: Edge)
    requires Inv(c, s) && AllDone(s) && e in c.Es() && e.src in s.visited && s.visited[e.src] < c.maxDepth
    ensures e in s.edges && e.dst in s.visited
  {
    hide Within;
    hide Distinct;
    var i :| 0 <= i < |s.tasks| && e.src in s.tasks[i].claimed;
    var t := s.tasks[i];
    assert TaskOk(c, s.visited, t);
    assert t.edges + Allowed(t.pending, c.filter) == t.edges;
    assert e in t.edges;
    DoneAwaited(c, s, e.dst);
  }

  lemma {:induction false} DoneWithin(c: Config, s: State, k: nat, x: Id)
    requires Inv(c, s) && AllDone(s) && BelowLimit(c, s.visited)
    requires x in Within(c.Es(), c.Starts(), k)
    ensures x in s.visited
  {
    if k == 0 {
      DoneAwaited(c, s, x);
    } else if x in Within(c.Es(), c.Starts(), k - 1) {
      DoneWithin(c, s, k - 1, x);
    } else {
      var e :| e in c.Es() && e.src in Within(c.Es(), c.Starts(), k - 1) && e.dst == x;
      DoneWithin(c, s, k - 1, e.src);
      DoneEdge(c, s, e);
    }
  }

  /** A finished schedule none of whose claims was stopped by the limit has claimed everything. */
  lemma BelowLimitIsAll(c: Config, s: State)
    requires Inv(c, s) && AllDone(s) && BelowLimit(c, s.visited)
    ensures s.visited.Keys == Reachable(c)
  {
    VisitedReachable(c, s.visited);
    forall x | x in Reachable(c) ensures x in s.visited {
      var j: nat :| x in Within(c.Es(), c.Starts(), j);
      DoneWithin(c, s, j, x);
    }
  }

  lemma ListedEdge(c: Config, s: State, e: Edge)
    requires TasksOk(c, s) && MergedOk(c, s) && e in s.edges
    ensures e in c.Es() && e.src in s.visited && s.visited[e.src] < c.maxDepth
  {
    hide Within;
    hide Distinct;
    var i :| 0 <= i < |s.tasks| && s.tasks[i].done && e in s.tasks[i].edges;
    var t := s.tasks[i];
    assert TaskOk(c, s.visited, t);
    assert e in t.edges + Allowed(t.pending, c.filter);
  }

  /** Every finished schedule reports the stored ids it claimed and the allowed out-edges of those it expanded. */
  lemma FinishedLists(c: Config, s: State)
    requires Inv(c, s) && AllDone(s)
    ensures Distinct(s.nodes) && forall x :: x in s.nodes <==> x in c.stored && x in s.visited
    ensures Distinct(s.edges)
    ensures forall e :: e in s.edges <==> e in c.Es() && e.src in s.visited && s.visited[e.src] < c.maxDepth
  {
    hide Within;
    hide Distinct;
    forall x ensures x in s.nodes <==> x in c.stored && x in s.visited {
      if x in s.nodes {
        var i :| 0 <= i < |s.tasks| && s.tasks[i].listed && x in s.tasks[i].claimed;
        assert TaskOk(c, s.visited, s.tasks[i]);
      }
      if x in c.stored && x in s.visited {
        var i :| 0 <= i < |s.tasks| && x in s.tasks[i].claimed;
        assert s.tasks[i].done;
      }
    }
    forall e ensures e in s.edges <==> e in c.Es() && e.src in s.visited && s.visited[e.src] < c.maxDepth {
      if e in s.edges {
        ListedEdge(c, s, e);
      } else if e in c.Es() && e.src in s.visited && s.visited[e.src] < c.maxDepth {
        DoneEdge(c, s, e);
      }
    }
  }

  /**
   * With max_depth at least the number of reachable ids, every finished schedule reports exactly
   * the stored reachable nodes, each once, and every allowed edge out of a reachable id, each once.
   */
  lemma FinishedIsExact(c: Config, run: seq<State>, k: nat)
    requires c.Ok() && IsRun(c, run) && k < |run| && AllDone(run[k])
    requires |Reachable(c)| <= c.maxDepth
    ensures run[k].visited.Keys == Reachable(c)
    ensures Distinct(run[k].nodes) && forall x :: x in run[k].nodes <==> x in c.stored && x in Reachable(c)
    ensures Distinct(run[k].edges) && forall e :: e in run[k].edges <==> e in c.Es() && e.src in Reachable(c)
  {
    RunInv(c, run, k);
    hide IsRun, Distinct, Reachable;
    NeverAtLimit(c, run[k].visited);
    BelowLimitIsAll(c, run[k]);
    FinishedLists(c, run[k]);
  }

  // ---------- every schedule ends ----------

  /** Work left in one task: two units per edge to look at, one per queued entry, one for each merge. */
  function Work(t: Task): nat {
    2 * |t.pending| + |t.queue| + (if t.listed then 0 else 1) + (if t.done then 0 else 1)
  }

  function TotalWork(ts: seq<Task>): nat {
    if ts == [] then 0 else Work(ts[0]) + TotalWork(ts[1..])
  }

  lemma {:induction false} WorkChange(ts: seq<Task>, i: nat, t: Task)
    requires i < |ts|
    ensures TotalWork(ts[i := t]) - TotalWork(ts) == Work(t) - Work(ts[i])
  {
    if i > 0 {
      WorkChange(ts[1..], i - 1, t);
      assert ts[i := t][1..] == ts[1..][i - 1 := t];
    } else {
      assert ts[0 := t][1..] == ts[1..];
    }
  }

  /**
   * Every step either claims one of the finitely many ids or, claiming none, reduces the work
   * left, so no schedule runs forever.
   */
  lemma EveryStepProgresses(c: Config, s: State, s': State)
    requires Inv(c, s) && Next(c, s, s')
    ensures var all := Universe(c.Es(), c.Starts());
            || |all - s'.visited.Keys| < |all - s.visited.Keys|
            || (s'.visited == s.visited && TotalWork(s'.tasks) < TotalWork(s.tasks))
  {
    var i: nat :| TaskStep(c, s, s', i);
    hide *;
    if ClaimStep(c, s, s', i) {
      ClaimProgresses(c, s, s', i);
    } else {
      LocalProgresses(c, s, s', i);
    }
  }

  lemma LocalProgresses(c: Config, s: State, s': State, i: nat)
    requires TaskStep(c, s, s', i) && !ClaimStep(c, s, s', i)
    ensures s'.visited == s.visited && TotalWork(s'.tasks) < TotalWork(s.tasks)
  {
    hide TotalWork;
    WorkChange(s.tasks, i, s'.tasks[i]);
  }

  lemma ClaimProgresses(c: Config, s: State, s': State, i: nat)
    requires Inv(c, s) && ClaimStep(c, s, s', i)
    ensures var all := Universe(c.Es(), c.Starts()); |all - s'.visited.Keys| < |all - s.visited.Keys|
  {
    var all := Universe(c.Es(), c.Starts());
    var (id, d) := s.tasks[i].queue[0];
    assert TaskOk(c, s.visited, s.tasks[i]);
    WithinUniverse(c.Es(), c.Starts(), d);
    hide *;
    assert all - s'.visited.Keys == (all - s.visited.Keys) - {id};
  }

  /** A schedule that cannot go on has finished, and one that has finished cannot go on. */
  lemma StuckIsDone(c: Config, s: State)
    requires Inv(c, s)
    ensures AllDone(s) <==> forall s' :: !Next(c, s, s')
  {
    if AllDone(s) {
      forall i | 0 <= i < |s.tasks| ensures s.tasks[i].queue == [] && s.tasks[i].pending == [] && s.tasks[i].listed {
        assert TaskOk(c, s.visited, s.tasks[i]);
      }
    } else {
      var s' := UnfinishedHasStep(c, s);
    }
  }

  /** A state in which some task has not finished has a step. */
  lemma UnfinishedHasStep(c: Config, s: State) returns (s': State)
    requires !AllDone(s)
    ensures Next(c, s, s')
  {
    var i :| 0 <= i < |s.tasks| && !s.tasks[i].done;
    var t := s.tasks[i];
    if t.pending != [] {
      var e := t.pending[0];
      var t1 := t.(pending := t.pending[1..]);
      s' := s.(tasks := s.tasks[i :=
                 if !c.filter.Allows(e) then t1
                 else t1.(queue := if e.dst in s.visited then t.queue else t.queue + [(e.dst, t.depth + 1)],
                          edges := t.edges + [e])]);
      assert EdgeStep(c, s, s', i) && TaskStep(c, s, s', i);
    } else if t.queue == [] && !t.listed {
      s' := s.(tasks := s.tasks[i := t.(listed := true)], nodes := s.nodes + InStore(c.stored, t.claimed));
      assert ListStep(c, s, s', i) && TaskStep(c, s, s', i);
    } else if t.queue == [] {
      s' := s.(tasks := s.tasks[i := t.(done := true)], edges := s.edges + t.edges);
      assert FinishStep(c, s, s', i) && TaskStep(c, s, s', i);
    } else if t.queue[0].0 in s.visited {
      s' := s.(tasks := s.tasks[i := t.(queue := t.queue[1..])]);
      assert SkipStep(c, s, s', i) && TaskStep(c, s, s', i);
    } else {
      var (id, d) := t.queue[0];
      var out := if d >= c.maxDepth then [] else OutEdges(c.edges, id);
      s' := s.(visited := s.visited[id := d],
               tasks := s.tasks[i := t.(queue := t.queue[1..], pending := out, depth := d, claimed := t.claimed +
                 [id])]);
      assert ClaimStep(c, s, s', i) && TaskStep(c, s, s', i);
    }
  }
}
