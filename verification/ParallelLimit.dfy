/**
 * How generous the depth limit of `parallel_traverse` has to be. An id is claimed at whatever
 * depth a task first takes it from its queue, so one task can claim an id at the limit, where it is
 * not expanded, although another task stands right in front of it. The bound on the number of
 * reachable ids that rules this out is exact; rings of ids show that nothing less will do.
 */
module ParallelLimit {
  import opened Graph
  import opened Parallel

  /** A finished schedule has claimed every id within the limit. */
  ghost predicate AllIds(c: Config, s: State) {
    s.visited.Keys == Within(c.Es(), c.Starts(), c.maxDepth)
  }

  /** It has listed every allowed edge out of an id below the limit. */
  ghost predicate AllEdges(c: Config, s: State) {
    forall e :: e in s.edges <==> e in c.Es() && c.maxDepth > 0 && e.src in Within(c.Es(), c.Starts(), c.maxDepth - 1)
  }

  ghost predicate Finished(c: Config, run: seq<State>) {
    c.Ok() && IsRun(c, run) && AllDone(run[|run| - 1])
  }

  /** Whatever the graph with `n` reachable ids, every finished schedule under limit `d` claims every id it should. */
  ghost predicate IdsRight(n: nat, d: nat) {
    forall c, run :: Finished(c, run) && |Reachable(c)| == n && c.maxDepth == d ==> AllIds(c, run[|run| - 1])
  }

  ghost predicate EdgesRight(n: nat, d: nat) {
    forall c, run :: Finished(c, run) && |Reachable(c)| == n && c.maxDepth == d ==> AllEdges(c, run[|run| - 1])
  }

  // ---------- a generous limit is enough ----------

  /** Whatever is claimed lies within the limit. */
  lemma VisitedWithin(c: Config, visited: map<Id, nat>)
    requires VisitedOk(c, visited)
    ensures visited.Keys <= Within(c.Es(), c.Starts(), c.maxDepth)
    ensures forall x :: x in visited && visited[x] < c.maxDepth ==> x in Within(c.Es(), c.Starts(), c.maxDepth - 1)
  {
    forall x | x in visited ensures x in Within(c.Es(), c.Starts(), c.maxDepth) {
      WithinGrows(c.Es(), c.Starts(), visited[x], c.maxDepth);
    }
    forall x | x in visited && visited[x] < c.maxDepth ensures x in Within(c.Es(), c.Starts(), c.maxDepth - 1) {
      WithinGrows(c.Es(), c.Starts(), visited[x], c.maxDepth - 1);
    }
  }

  lemma FewIds(c: Config, s: State)
    requires Inv(c, s) && AllDone(s) && (c.maxDepth == 0 || |Reachable(c)| <= c.maxDepth + 1)
    ensures AllIds(c, s)
  {
    VisitedWithin(c, s.visited);
    WithinReachable(c, c.maxDepth);
    if c.maxDepth == 0 {
      forall x | x in c.Starts() ensures x in s.visited {
        DoneAwaited(c, s, x);
      }
    } else if BelowLimit(c, s.visited) {
      BelowLimitIsAll(c, s);
    } else {
      var x :| x in s.visited && s.visited[x] >= c.maxDepth;
      AtLimitIsAll(c, s.visited, x);
    }
  }

  lemma InvVisited(c: Config, s: State)
    requires Inv(c, s)
    ensures VisitedOk(c, s.visited)
  {
  }

  lemma FewEdges(c: Config, s: State)
    requires Inv(c, s) && AllDone(s) && (c.maxDepth == 0 || |Reachable(c)| <= c.maxDepth)
    ensures AllEdges(c, s)
  {
    hide Inv, Within, Reachable, Distinct, VisitedOk, AllDone, Allowed;
    FinishedLists(c, s);
    InvVisited(c, s);
    VisitedWithin(c, s.visited);
    if c.maxDepth > 0 {
      NeverAtLimit(c, s.visited);
      BelowLimitIsAll(c, s);
      WithinReachable(c, c.maxDepth - 1);
    }
  }

  // ---------- a ring of ids ----------

  function Name(i: nat): Id { seq(i, _ => 'a') }

  lemma NameInjective(i: nat, j: nat)
    requires Name(i) == Name(j)
    ensures i == j
  {
    assert |Name(i)| == i && |Name(j)| == j;
  }

  function Around(n: nat, i: nat): nat { if i + 1 == n then 0 else i + 1 }

  /** The edge from the `i`th id of a ring of `n` to the next. */
  function Hop(n: nat, i: nat): Edge { Edge(Name(i), Name(i), Name(Around(n, i)), "next") }

  function Hops(n: nat, a: nat): seq<Edge>
    requires a <= n
    decreases n - a
  {
    if a == n then [] else [Hop(n, a)] + Hops(n, a + 1)
  }

  function Names(n: nat): set<Id> {
    if n == 0 then {} else Names(n - 1) + {Name(n - 1)}
  }

  /** A ring of `n` ids, searched from two neighbours. */
  function RingOf(n: nat, d: nat): Config {
    Config(Names(n), Hops(n, 0), AnyKind, [Name(0), Name(1)], d)
  }

  lemma {:induction false} NamesAre(n: nat)
    ensures |Names(n)| == n && forall i: nat :: Name(i) in Names(n) <==> i < n
  {
    if n > 0 {
      NamesAre(n - 1);
      forall i: nat ensures Name(i) in Names(n) <==> i < n {
        if Name(i) == Name(n - 1) { NameInjective(i, n - 1); }
      }
    }
  }

  lemma {:induction false} NamesOnly(n: nat, x: Id)
    requires x in Names(n)
    ensures exists i: nat :: i < n && x == Name(i)
  {
    if x != Name(n - 1) { NamesOnly(n - 1, x); }
  }

  lemma {:induction false} HopsAre(n: nat, a: nat, i: nat)
    requires a <= n
    ensures Hop(n, i) in Hops(n, a) <==> a <= i < n
    ensures OutEdges(Hops(n, a), Name(i)) == if a <= i < n then [Hop(n, i)] else []
    decreases n - a
  {
    if a < n {
      HopsAre(n, a + 1, i);
      assert Hops(n, a)[1..] == Hops(n, a + 1);
      if Name(a) == Name(i) { NameInjective(a, i); }
    }
  }

  lemma {:induction false} HopsOnly(n: nat, a: nat, e: Edge)
    requires a <= n && e in Hops(n, a)
    ensures exists i: nat :: a <= i < n && e == Hop(n, i)
    decreases n - a
  {
    if e != Hop(n, a) { HopsOnly(n, a + 1, e); }
  }

  lemma {:induction false} HopsDistinct(n: nat, a: nat)
    requires a <= n
    ensures Distinct(Hops(n, a))
    decreases n - a
  {
    if a < n {
      HopsDistinct(n, a + 1);
      HopsAre(n, a + 1, a);
    }
  }

  lemma {:induction false} AllAllowed(es: seq<Edge>)
    ensures Allowed(es, AnyKind) == es
  {
    if es != [] { AllAllowed(es[1..]); }
  }

  /** Going round from the `a`th id. */
  lemma {:induction false} HopWithin(n: nat, starts: set<Id>, a: nat, i: nat)
    requires a <= i < n && Name(a) in starts
    ensures Name(i) in Within(Hops(n, 0), starts, i - a)
  {
    hide Within, Hops, Name;
    if i == a {
      NoHops(Hops(n, 0), starts);
    } else {
      HopWithin(n, starts, a, i - 1);
      HopsAre(n, 0, i - 1);
      WithinStep(Hops(n, 0), starts, i - 1 - a, Hop(n, i - 1));
    }
  }

  lemma NoHops(es: seq<Edge>, starts: set<Id>)
    ensures Within(es, starts, 0) == starts
  {
  }

  /** Going round from the first or the second id. */
  lemma RingWithin(n: nat, d: nat, i: nat)
    requires i < n
    ensures Name(i) in Within(Hops(n, 0), RingOf(n, d).Starts(), i)
    ensures i > 0 ==> Name(i) in Within(Hops(n, 0), RingOf(n, d).Starts(), i - 1)
  {
    hide Within, Hops, Name;
    var c := RingOf(n, d);
    assert c.starts[0] in c.Starts() && c.starts[1] in c.Starts();
    HopWithin(n, c.Starts(), 0, i);
    if i > 0 {
      HopWithin(n, c.Starts(), 1, i);
    }
  }

  lemma {:induction false} RingIsClosed(n: nat, d: nat, k: nat)
    requires n >= 2
    ensures Within(Hops(n, 0), RingOf(n, d).Starts(), k) <= Names(n)
  {
    NamesAre(n);
    var c := RingOf(n, d);
    if k == 0 {
      forall x | x in c.Starts() ensures x in Names(n) {
        assert x == c.starts[0] || x == c.starts[1];
      }
    } else {
      RingIsClosed(n, d, k - 1);
      forall e | e in Hops(n, 0) ensures e.dst in Names(n) {
        HopsOnly(n, 0, e);
        var i: nat :| i < n && e == Hop(n, i);
      }
    }
  }

  lemma RingReachable(n: nat, d: nat)
    requires n >= 2
    ensures RingOf(n, d).Ok() && RingOf(n, d).Es() == Hops(n, 0)
    ensures Reachable(RingOf(n, d)) == Names(n) && |Names(n)| == n
  {
    var c := RingOf(n, d);
    AllAllowed(Hops(n, 0));
    HopsDistinct(n, 0);
    NamesAre(n);
    forall x | x in Names(n) ensures x in Reachable(c) {
      NamesOnly(n, x);
      var i: nat :| i < n && x == Name(i);
      RingWithin(n, d, i);
      WithinReachable(c, i);
    }
    forall x | x in Reachable(c) ensures x in Names(n) {
      var k: nat :| x in Within(c.Es(), c.Starts(), k);
      RingIsClosed(n, d, k);
    }
  }

  // ---------- the schedule: the first task goes all the way, then the second starts ----------

  function Seen(k: nat): map<Id, nat> {
    if k == 0 then map[] else Seen(k - 1)[Name(k - 1) := k - 1]
  }

  lemma {:induction false} SeenAre(k: nat, i: nat)
    ensures Name(i) in Seen(k) <==> i < k
  {
    if k > 0 {
      SeenAre(k - 1, i);
      if Name(i) == Name(k - 1) { NameInjective(i, k - 1); }
    }
  }

  function Claims(k: nat): seq<Id> {
    if k == 0 then [] else Claims(k - 1) + [Name(k - 1)]
  }

  function Listed(n: nat, k: nat): seq<Edge> {
    if k == 0 then [] else Listed(n, k - 1) + [Hop(n, k - 1)]
  }

  lemma {:induction false} ListedAre(n: nat, k: nat, i: nat)
    ensures Hop(n, i) in Listed(n, k) <==> i < k
  {
    if k > 0 {
      ListedAre(n, k - 1, i);
      if Hop(n, i) == Hop(n, k - 1) { NameInjective(i, k - 1); }
    }
  }

  const WAITING: Task := Task([(Name(1), 0)], [], 0, [], [], false, false)

  function Walker(n: nat, k: nat, queue: seq<(Id, nat)>, pending: seq<Edge>, depth: nat, edges: nat): Task {
    Task(queue, pending, depth, Claims(k), Listed(n, edges), false, false)
  }

  /** The first task is about to claim the `k`th id. */
  function Before(n: nat, k: nat): State {
    State(Seen(k), [Walker(n, k, [(Name(k), k)], [], if k == 0 then 0 else k - 1, k), WAITING], [], [])
  }

  lemma Extend(c: Config, run: seq<State>, s': State) returns (run': seq<State>)
    requires IsRun(c, run) && |run| > 0 && Next(c, run[|run| - 1], s')
    ensures IsRun(c, run') && |run'| > 0 && run'[|run'| - 1] == s'
  {
    hide Next;
    hide Init;
    run' := run + [s'];
    assert Next(c, run'[|run| - 1], run'[|run|]);
  }

  lemma ClaimHere(n: nat, d: nat, k: nat) returns (s': State)
    requires n >= 2 && k <= d < n
    ensures Next(RingOf(n, d), Before(n, k), s')
    ensures s' == State(Seen(k + 1), [Walker(n, k + 1, [], if k == d then [] else [Hop(n, k)], k, k), WAITING], [], [])
  {
    var c, s := RingOf(n, d), Before(n, k);
    s' := State(Seen(k + 1), [Walker(n, k + 1, [], if k == d then [] else [Hop(n, k)], k, k), WAITING], [], []);
    SeenAre(k, k);
    HopsAre(n, 0, k);
    hide OutEdges, Hops, Listed;
    assert s.tasks[0].queue[1..] == [];
    assert s'.tasks == s.tasks[0 := s'.tasks[0]];
    assert ClaimStep(c, s, s', 0);
    assert TaskStep(c, s, s', 0);
  }

  lemma FollowOne(c: Config, s: State, e: Edge, s': State)
    requires |s.tasks| == 2 && s.tasks[0].queue == [] && s.tasks[0].pending == [e] && c.filter.AnyKind? &&
      e.dst !in s.visited
    requires var t := s.tasks[0];
             s' == s.(tasks := [t.(pending := [], queue := [(e.dst, t.depth + 1)], edges := t.edges + [e]), s.tasks[1]])
    ensures Next(c, s, s')
  {
    assert [e][1..] == [] && [] + [(e.dst, s.tasks[0].depth + 1)] == [(e.dst, s.tasks[0].depth + 1)];
    assert s'.tasks == s.tasks[0 := s'.tasks[0]];
    assert EdgeStep(c, s, s', 0);
    assert TaskStep(c, s, s', 0);
  }

  lemma FollowHere(n: nat, d: nat, k: nat, s: State)
    requires n >= 2 && k < d < n && s == State(Seen(k + 1), [Walker(n, k + 1, [], [Hop(n, k)], k, k), WAITING], [], [])
    ensures Next(RingOf(n, d), s, Before(n, k + 1))
  {
    hide Seen, Claims, Hops, Name, Names, Next, Listed, Hop, RingOf;
    SeenAre(k + 1, k + 1);
    HopForward(n, d, k);
    FollowOne(RingOf(n, d), s, Hop(n, k), Before(n, k + 1));
  }

  lemma HopForward(n: nat, d: nat, k: nat)
    requires k + 1 < n
    ensures Hop(n, k).dst == Name(k + 1) && Listed(n, k + 1) == Listed(n, k) + [Hop(n, k)]
    ensures RingOf(n, d).filter == AnyKind
  {
  }

  lemma {:induction false} Walk(n: nat, d: nat, k: nat) returns (run: seq<State>)
    requires n >= 2 && k <= d < n
    ensures IsRun(RingOf(n, d), run) && |run| > 0 && run[|run| - 1] == Before(n, k)
  {
    var c := RingOf(n, d);
    if k == 0 {
      run := [Before(n, 0)];
      WalkStarts(n, d);
    } else {
      run := Walk(n, d, k - 1);
      hide Before, Walker, Seen, IsRun, Next;
      var s := ClaimHere(n, d, k - 1);
      run := Extend(c, run, s);
      FollowHere(n, d, k - 1, s);
      run := Extend(c, run, Before(n, k));
    }
  }

  lemma WalkStarts(n: nat, d: nat)
    ensures IsRun(RingOf(n, d), [Before(n, 0)])
  {
    var s, c := Before(n, 0), RingOf(n, d);
    assert s.tasks[0] == Task([(c.starts[0], 0)], [], 0, [], [], false, false);
    assert s.tasks[1] == Task([(c.starts[1], 0)], [], 0, [], [], false, false);
  }

  /** A task with nothing left to do merges its nodes and then its edges. */
  lemma Merges(c: Config, run: seq<State>, i: nat) returns (run': seq<State>)
    requires IsRun(c, run) && |run| > 0 && i < |run[|run| - 1].tasks|
    requires var t := run[|run| - 1].tasks[i]; t.queue == [] && t.pending == [] && !t.listed && !t.done
    ensures IsRun(c, run') && |run'| > 0
    ensures var s, s' := run[|run| - 1], run'[|run'| - 1];
            && s'.visited == s.visited && s'.edges == s.edges + s.tasks[i].edges
            && s'.tasks == s.tasks[i := s.tasks[i].(listed := true, done := true)]
  {
    hide IsRun, Next;
    var s := run[|run| - 1];
    var t := s.tasks[i];
    var s1 := s.(tasks := s.tasks[i := t.(listed := true)], nodes := s.nodes + InStore(c.stored, t.claimed));
    NextIs(c, s, s1, i);
    run' := Extend(c, run, s1);
    var s2 := s1.(tasks := s1.tasks[i := t.(listed := true, done := true)], edges := s1.edges + t.edges);
    NextIs(c, s1, s2, i);
    run' := Extend(c, run', s2);
  }

  lemma NextIs(c: Config, s: State, s': State, i: nat)
    requires TaskStep(c, s, s', i)
    ensures Next(c, s, s')
  {
  }

  /** The whole schedule: the second task finds its start claimed. */
  lemma RingSchedule(n: nat, d: nat) returns (run: seq<State>)
    requires n >= 2 && 1 <= d < n
    ensures Finished(RingOf(n, d), run) && |run| > 0
    ensures run[|run| - 1].visited == Seen(d + 1) && run[|run| - 1].edges == Listed(n, d)
  {
    hide IsRun, Next, RingOf, Seen, Listed, Claims, Reachable, Hops, Names, Config.Ok;
    var c := RingOf(n, d);
    RingReachable(n, d);
    run := RingClaims(n, d);
    run := Merges(c, run, 0);
    run := Merges(c, run, 1);
    assert [] + Listed(n, d) + [] == Listed(n, d);
  }

  lemma RingClaims(n: nat, d: nat) returns (run: seq<State>)
    requires n >= 2 && 1 <= d < n
    ensures IsRun(RingOf(n, d), run) && |run| > 0
    ensures run[|run| - 1] ==
      State(Seen(d + 1), [Walker(n, d + 1, [], [], d, d), WAITING.(queue := [])], [], [])
  {
    hide IsRun, Next, RingOf, Before, Seen, Walker;
    var c := RingOf(n, d);
    run := Walk(n, d, d);
    var s := ClaimHere(n, d, d);
    run := Extend(c, run, s);
    var s1 := s.(tasks := s.tasks[1 := WAITING.(queue := [])]);
    SkipsStart(n, d, s, s1);
    run := Extend(c, run, s1);
  }

  lemma SkipsStart(n: nat, d: nat, s: State, s1: State)
    requires d >= 1 && s.visited == Seen(d + 1) && |s.tasks| == 2 && s.tasks[1] == WAITING
    requires s1 == s.(tasks := s.tasks[1 := WAITING.(queue := [])])
    ensures Next(RingOf(n, d), s, s1)
  {
    SeenAre(d + 1, 1);
    hide Seen, RingOf;
    assert WAITING.queue[1..] == [];
    assert SkipStep(RingOf(n, d), s, s1, 1);
    assert TaskStep(RingOf(n, d), s, s1, 1);
  }

  // ---------- nothing less will do ----------

  lemma RingLimit(n: nat, d: nat)
    ensures RingOf(n, d).maxDepth == d
  {
  }

  /** On a ring of more than `d + 1` ids the schedule misses an id at distance `d`. */
  lemma RingMissesId(n: nat, d: nat) returns (run: seq<State>)
    requires 1 <= d && d + 2 <= n
    ensures Finished(RingOf(n, d), run) && |run| > 0 && !AllIds(RingOf(n, d), run[|run| - 1])
  {
    hide Finished, Seen, Within, Reachable, Hops, IsRun, RingOf, Name, Names;
    run := RingSchedule(n, d);
    RingReachable(n, d);
    SeenAre(d + 1, d + 1);
    RingWithin(n, d, d + 1);
    RingLimit(n, d);
    assert Name(d + 1) !in run[|run| - 1].visited.Keys;
  }

  /** On a ring of more than `d` ids it misses an edge out of an id at distance below `d`. */
  lemma RingMissesEdge(n: nat, d: nat) returns (run: seq<State>)
    requires 1 <= d && d + 1 <= n
    ensures Finished(RingOf(n, d), run) && |run| > 0 && !AllEdges(RingOf(n, d), run[|run| - 1])
  {
    hide Finished, Listed, Within, Reachable, Hops, IsRun, RingOf, Name, Names;
    run := RingSchedule(n, d);
    RingReachable(n, d);
    ListedAre(n, d, d);
    HopsAre(n, 0, d);
    RingWithin(n, d, d);
    RingLimit(n, d);
    assert Hop(n, d) !in run[|run| - 1].edges;
    assert Hop(n, d).src == Name(d);
  }

  /**
   * Every finished schedule claims every id within the limit, on every graph with `n` reachable
   * ids, if and only if the limit is 0 or at least `n - 1`.
   */
  lemma IdsExact(n: nat, d: nat)
    ensures IdsRight(n, d) <==> d == 0 || n <= d + 1
  {
    if d == 0 || n <= d + 1 {
      forall c, run | Finished(c, run) && |Reachable(c)| == n && c.maxDepth == d ensures AllIds(c, run[|run| - 1]) {
        RunInv(c, run, |run| - 1);
        FewIds(c, run[|run| - 1]);
      }
    } else {
      var run := RingMissesId(n, d);
      RingReachable(n, d);
    }
  }

  /** It lists every allowed edge out of the ids below the limit if and only if the limit is 0 or at least `n`. */
  lemma EdgesExact(n: nat, d: nat)
    ensures EdgesRight(n, d) <==> d == 0 || n <= d
  {
    if d == 0 || n <= d {
      forall c, run | Finished(c, run) && |Reachable(c)| == n && c.maxDepth == d ensures AllEdges(c, run[|run| - 1]) {
        RunInv(c, run, |run| - 1);
        FewEdges(c, run[|run| - 1]);
      }
    } else {
      var run := RingMissesEdge(n, d);
      RingReachable(n, d);
    }
  }
}
