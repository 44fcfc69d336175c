/** `connected_components` of src/query/executor.rs: weak components by repeated search. */
module Components {
  import opened Graph

  /** `get_edges_to`: the stored edges arriving at a node. */
  function InEdges(es: seq<Edge>, dst: Id): seq<Edge> {
    if es == [] then [] else (if es[0].dst == dst then [es[0]] else []) + InEdges(es[1..], dst)
  }

  lemma {:induction false} InEdgesIn(es: seq<Edge>, dst: Id, e: Edge)
    ensures e in InEdges(es, dst) <==> e in es && e.dst == dst
  {
    if es != [] {
      InEdgesIn(es[1..], dst, e);
      assert es == [es[0]] + es[1..];
    }
  }

  /** Two ids joined by an edge, whichever way it points. */
  ghost predicate Touching(es: seq<Edge>, a: Id, b: Id) {
    Linked(es, a, b) || Linked(es, b, a)
  }

  ghost predicate IsChain(es: seq<Edge>, p: seq<Id>) {
    |p| > 0 && forall i :: 0 <= i < |p| - 1 ==> Touching(es, p[i], p[i + 1])
  }

  ghost predicate Connects(es: seq<Edge>, p: seq<Id>, a: Id, b: Id) {
    IsChain(es, p) && p[0] == a && p[|p| - 1] == b
  }

  /** Weakly connected: joined by a chain of edges followed in either direction. */
  ghost predicate Connected(es: seq<Edge>, a: Id, b: Id) {
    exists p :: Connects(es, p, a, b)
  }

  /** No edge leaves or enters the set. */
  ghost predicate Closed(es: seq<Edge>, s: set<Id>) {
    forall e :: e in es ==> (e.src in s <==> e.dst in s)
  }

  lemma ConnectedSelf(es: seq<Edge>, a: Id)
    ensures Connected(es, a, a)
  {
    assert Connects(es, [a], a, a);
  }

  lemma ConnectedStep(es: seq<Edge>, a: Id, b: Id, c: Id)
    requires Connected(es, a, b) && Touching(es, b, c)
    ensures Connected(es, a, c)
  {
    var p :| Connects(es, p, a, b);
    var q := p + [c];
    forall i | 0 <= i < |q| - 1 ensures Touching(es, q[i], q[i + 1]) {
      if i < |p| - 1 { assert Touching(es, p[i], p[i + 1]); }
    }
    assert Connects(es, q, a, c);
  }

  /** A closed set holds both ends of a chain or neither. */
  lemma {:induction false} ClosedChain(es: seq<Edge>, s: set<Id>, p: seq<Id>)
    requires Closed(es, s) && IsChain(es, p)
    ensures p[0] in s <==> p[|p| - 1] in s
    decreases |p|
  {
    if |p| > 1 {
      assert Touching(es, p[0], p[0 + 1]);
      var q := p[1..];
      forall i | 0 <= i < |q| - 1 ensures Touching(es, q[i], q[i + 1]) {
        assert Touching(es, p[i + 1], p[i + 1 + 1]);
      }
      ClosedChain(es, s, q);
    }
  }

  lemma ClosedConnected(es: seq<Edge>, s: set<Id>, a: Id, b: Id)
    requires Closed(es, s) && Connected(es, a, b)
    ensures a in s <==> b in s
  {
    var p :| Connects(es, p, a, b);
    ClosedChain(es, s, p);
  }

  /** A list of ids is the component of its first member: each stored id connected to it, once. */
  ghost predicate IsComponent(stored: set<Id>, es: seq<Edge>, c: seq<Id>) {
    && |c| > 0 && Distinct(c)
    && forall x :: x in c <==> x in stored && Connected(es, c[0], x)
  }

  function NewIds(ids: seq<Id>, visited: set<Id>): (r: seq<Id>)
    ensures forall x :: x in r <==> x in ids && x !in visited
  {
    if ids == [] then [] else
    var last := ids[|ids| - 1];
    assert ids == ids[..|ids| - 1] + [last];
    NewIds(ids[..|ids| - 1], visited) + if last in visited then [] else [last]
  }

  function Ends(es: seq<Edge>, targets: bool): seq<Id> {
    seq(|es|, i requires 0 <= i < |es| => if targets then es[i].dst else es[i].src)
  }

  /** One of the two edge loops: queue the far end of every edge unless it is visited. */
  method PushEnds(edges: seq<Edge>, targets: bool, visited: set<Id>) returns (pushed: seq<Id>)
    ensures pushed == NewIds(Ends(edges, targets), visited)
  {
    pushed := [];
    for i := 0 to |edges|
      invariant pushed == NewIds(Ends(edges[..i], targets), visited)
    {
      var end := if targets then edges[i].dst else edges[i].src;
      assert Ends(edges[..i + 1], targets) == Ends(edges[..i], targets) + [end];
      if end !in visited {
        pushed := pushed + [end];
      }
    }
    assert edges[..|edges|] == edges;
  }

  /** What a node's edges contribute to the queue: every unvisited neighbour and nothing else. */
  lemma PushedEnds(es: seq<Edge>, id: Id, visited: set<Id>, x: Id)
    ensures x in NewIds(Ends(OutEdges(es, id), true), visited) + NewIds(Ends(InEdges(es, id), false), visited) <==>
            x !in visited && Touching(es, id, x)
  {
    var out, into := OutEdges(es, id), InEdges(es, id);
    hide OutEdges;
    hide InEdges;
    if Linked(es, id, x) {
      var e :| e in es && e.src == id && e.dst == x;
      OutEdgesIn(es, id, e);
      var i :| 0 <= i < |out| && out[i] == e;
      assert Ends(out, true)[i] == x;
    }
    if Linked(es, x, id) {
      var e :| e in es && e.src == x && e.dst == id;
      InEdgesIn(es, id, e);
      var i :| 0 <= i < |into| && into[i] == e;
      assert Ends(into, false)[i] == x;
    }
    if x in Ends(out, true) {
      var i :| 0 <= i < |out| && Ends(out, true)[i] == x;
      OutEdgesIn(es, id, out[i]);
      assert Linked(es, id, x);
    }
    if x in Ends(into, false) {
      var i :| 0 <= i < |into| && Ends(into, false)[i] == x;
      InEdgesIn(es, id, into[i]);
      assert Linked(es, x, id);
    }
  }

  /** Growing one component from `seed` around the closed set `done` of earlier ones. */
  ghost predicate Growing(stored: set<Id>, es: seq<Edge>, seed: Id, done: set<Id>,
                          visited: set<Id>, queue: seq<Id>, component: seq<Id>) {
    && Closed(es, done) && seed !in done && done <= visited
    && (forall x :: x in queue || x in visited - done ==> Connected(es, seed, x))
    && (seed in visited || seed in queue)
    && (forall x, y :: x in visited - done && Touching(es, x, y) ==> y in visited || y in queue)
    && Distinct(component) && (forall x :: x in component <==> x in stored * (visited - done))
    && (seed in visited && seed in stored ==> component != [] && component[0] == seed)
    && (seed !in visited ==> visited == done && queue == [seed] && component == [])
  }

  lemma GrowStart(stored: set<Id>, es: seq<Edge>, seed: Id, done: set<Id>)
    requires Closed(es, done) && seed !in done
    ensures Growing(stored, es, seed, done, done, [seed], [])
  {
    ConnectedSelf(es, seed);
  }

  lemma GrowSeen(stored: set<Id>, es: seq<Edge>, seed: Id, done: set<Id>,
                 visited: set<Id>, queue: seq<Id>, component: seq<Id>)
    requires Growing(stored, es, seed, done, visited, queue, component)
    requires queue != [] && queue[0] in visited
    ensures Growing(stored, es, seed, done, visited, queue[1..], component)
  {
    hide Closed;
    hide Connected;
    hide Touching;
    hide Distinct;
    assert queue == [queue[0]] + queue[1..];
  }

  lemma GrowVisit(stored: set<Id>, es: seq<Edge>, seed: Id, done: set<Id>,
                  visited: set<Id>, queue: seq<Id>, component: seq<Id>, pushed: seq<Id>)
    requires Growing(stored, es, seed, done, visited, queue, component)
    requires queue != [] && queue[0] !in visited
    requires forall x :: x in pushed <==> x !in visited + {queue[0]} && Touching(es, queue[0], x)
    ensures Growing(stored, es, seed, done, visited + {queue[0]}, queue[1..] + pushed,
                    if queue[0] in stored then component + [queue[0]] else component)
  {
    hide Closed;
    hide Touching;
    hide Distinct;
    var id := queue[0];
    assert queue == [id] + queue[1..];
    forall x | x in queue[1..] + pushed || x in visited + {id} - done ensures Connected(es, seed, x) {
      if x in pushed { ConnectedStep(es, seed, id, x); }
    }
    hide Connected;
    assert Distinct(component + [id]) by { AppendNew(component, id); }
  }

  lemma AppendNew(s: seq<Id>, x: Id)
    requires Distinct(s) && x !in s
    ensures Distinct(s + [x])
  {
  }

  /** With the queue empty the component is complete and the visited set is closed again. */
  lemma GrowEnd(stored: set<Id>, es: seq<Edge>, seed: Id, done: set<Id>, visited: set<Id>, component: seq<Id>)
    requires Growing(stored, es, seed, done, visited, [], component) && seed in stored
    ensures Closed(es, visited) && seed in visited
    ensures component != [] && component[0] == seed && IsComponent(stored, es, component)
    ensures forall x :: x in component <==> x in stored * (visited - done)
  {
    forall e | e in es ensures e.src in visited <==> e.dst in visited {
      assert Linked(es, e.src, e.dst);
      assert Touching(es, e.src, e.dst) && Touching(es, e.dst, e.src);
    }
    forall x ensures x in component <==> x in stored && Connected(es, seed, x) {
      if Connected(es, seed, x) {
        ClosedConnected(es, visited, seed, x);
        ClosedConnected(es, done, seed, x);
      }
    }
  }

  lemma GrowFront(stored: set<Id>, es: seq<Edge>, seed: Id, done: set<Id>,
                  visited: set<Id>, queue: seq<Id>, component: seq<Id>)
    requires Growing(stored, es, seed, done, visited, queue, component) && queue != []
    ensures queue[0] in AllIds(es, {seed})
  {
    assert Connected(es, seed, queue[0]);
    var p :| Connects(es, p, seed, queue[0]);
    if |p| > 1 {
      assert Touching(es, p[|p| - 2], p[|p| - 2 + 1]);
    }
  }

  ghost function AllIds(es: seq<Edge>, extra: set<Id>): set<Id> {
    extra + (set e | e in es :: e.dst) + (set e | e in es :: e.src)
  }

  /** The inner loop: collect the component of `seed`. */
  method Collect(stored: set<Id>, es: seq<Edge>, seed: Id, done: set<Id>) returns (component: seq<Id>, visited: set<Id>)
    requires Closed(es, done) && seed !in done && seed in stored
    ensures Closed(es, visited) && done <= visited && seed in visited
    ensures component != [] && component[0] == seed && IsComponent(stored, es, component)
    ensures forall x :: x in component <==> x in stored * (visited - done)
  {
    hide *;
    visited, component := done, [];
    var queue := [seed];
    ghost var left := AllIds(es, {seed}) - visited;
    GrowStart(stored, es, seed, done);
    while queue != []
      invariant Growing(stored, es, seed, done, visited, queue, component)
      invariant left == AllIds(es, {seed}) - visited && done <= visited
      decreases |left|, |queue|
    {
      var id := queue[0];
      if id in visited {
        GrowSeen(stored, es, seed, done, visited, queue, component);
        queue := queue[1..];
        continue;
      }
      GrowFront(stored, es, seed, done, visited, queue, component);
      ghost var before, visited0 := component, visited;
      visited, left := visited + {id}, left - {id};
      if id in stored {
        component := component + [id];
      }
      var ahead := PushEnds(OutEdges(es, id), true, visited);
      var behind := PushEnds(InEdges(es, id), false, visited);
      forall x ensures x in ahead + behind <==> x !in visited && Touching(es, id, x) {
        PushedEnds(es, id, visited, x);
      }
      GrowVisit(stored, es, seed, done, visited0, queue, before, ahead + behind);
      queue := queue[1..] + (ahead + behind);
    }
    GrowEnd(stored, es, seed, done, visited, component);
  }

  ghost predicate AreComponents(stored: set<Id>, es: seq<Edge>, comps: seq<seq<Id>>) {
    && (forall j :: 0 <= j < |comps| ==> IsComponent(stored, es, comps[j]))
    && (forall j, k, x :: 0 <= j < k < |comps| && x in comps[j] ==> x !in comps[k])
  }

  ghost predicate Covers(comps: seq<seq<Id>>, x: Id) {
    exists j :: 0 <= j < |comps| && x in comps[j]
  }

  /**
   * Every node of the type lies in exactly one component; components share no node, and each is
   * exactly the stored nodes weakly connected to its seed, a node of the type.
   */
  method ConnectedComponents(stored: set<Id>, es: seq<Edge>, ofType: seq<Id>) returns (comps: seq<seq<Id>>)
    requires forall x :: x in ofType ==> x in stored
    ensures AreComponents(stored, es, comps)
    ensures forall j :: 0 <= j < |comps| ==> comps[j] != [] && comps[j][0] in ofType
    ensures forall x :: x in ofType ==> Covers(comps, x)
  {
    hide IsComponent;
    hide Distinct;
    comps := [];
    var visited: set<Id> := {};
    for i := 0 to |ofType|
      invariant Closed(es, visited)
      invariant AreComponents(stored, es, comps)
      invariant forall j :: 0 <= j < |comps| ==> comps[j] != [] && comps[j][0] in ofType
      invariant forall j, x :: 0 <= j < |comps| && x in comps[j] ==> x in visited
      invariant forall x :: x in stored * visited ==> Covers(comps, x)
      invariant forall k :: 0 <= k < i ==> ofType[k] in visited
    {
      if ofType[i] in visited {
        continue;
      }
      var component, visited' := Collect(stored, es, ofType[i], visited);
      ComponentAdded(stored, es, ofType[i], visited, visited', comps, component);
      visited := visited';
      comps := comps + [component];
    }
  }

  /** Adding one finished component keeps the list of components disjoint and covering. */
  lemma ComponentAdded(stored: set<Id>, es: seq<Edge>, seed: Id, done: set<Id>, visited: set<Id>,
                       comps: seq<seq<Id>>, component: seq<Id>)
    requires AreComponents(stored, es, comps) && IsComponent(stored, es, component) && component[0] == seed
    requires Closed(es, done) && Closed(es, visited) && done <= visited
    requires forall j, x :: 0 <= j < |comps| && x in comps[j] ==> x in done
    requires forall x :: x in component <==> x in stored * (visited - done)
    requires forall x :: x in stored * done ==> Covers(comps, x)
    ensures AreComponents(stored, es, comps + [component])
    ensures forall x :: x in stored * visited ==> Covers(comps + [component], x)
  {
    var comps' := comps + [component];
    forall x | x in stored * visited ensures Covers(comps', x) {
      if x in done {
        assert Covers(comps, x);
        var j :| 0 <= j < |comps| && x in comps[j];
        assert x in comps'[j];
      } else {
        assert x in comps'[|comps|];
      }
    }
  }
}
