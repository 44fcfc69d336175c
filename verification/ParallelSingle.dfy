/**
 * With one start `parallel_traverse` has one task, whose queue makes it the breadth-first search
 * of `traverse`: every limit is exact.
 */
module ParallelSingle {
  import opened Graph
  import opened Parallel
  import opened ParallelLimit
  import BreadthFirst
  import Search

  /** The task's queue once the edges it is looking at have been dealt with. */
  ghost function Settling(c: Config, visited: map<Id, nat>, t: Task): seq<(Id, nat)> {
    t.queue + Search.NewEntries(Allowed(t.pending, c.filter), visited.Keys, t.depth)
  }

  ghost predicate OneOk(c: Config, s: State) {
    |c.starts| == 1 && |s.tasks| == 1 &&
    BreadthFirst.Inv(c.Es(), c.starts[0], c.maxDepth, s.visited, Settling(c, s.visited, s.tasks[0]))
  }

  lemma {:induction false} NewEntriesCons(e: Edge, rest: seq<Edge>, visited: set<Id>, depth: nat)
    ensures Search.NewEntries([e] + rest, visited, depth) ==
            (if e.dst in visited then [] else [(e.dst, depth + 1)]) + Search.NewEntries(rest, visited, depth)
  {
    if rest == [] {
      assert [e] + rest == [e] && [e][..0] == [];
      assert Search.NewEntries([], visited, depth) == [];
    } else {
      var init, last := rest[..|rest| - 1], rest[|rest| - 1];
      NewEntriesCons(e, init, visited, depth);
      assert ([e] + rest)[..|rest|] == [e] + init;
      assert ([e] + rest)[|rest|] == last;
    }
  }

  lemma NothingNew(c: Config, visited: map<Id, nat>, t: Task)
    requires t.pending == []
    ensures Settling(c, visited, t) == t.queue
  {
    assert Allowed([], c.filter) == [];
    assert Search.NewEntries([], visited.Keys, t.depth) == [];
  }

  lemma InitOne(c: Config, s: State)
    requires Init(c, s) && |c.starts| == 1
    ensures OneOk(c, s)
  {
    hide BreadthFirst.Inv;
    NothingNew(c, s.visited, s.tasks[0]);
    BreadthFirst.InitInv(c.Es(), c.starts[0], c.maxDepth);
  }

  lemma SkipOne(c: Config, s: State, s': State)
    requires OneOk(c, s) && SkipStep(c, s, s', 0)
    ensures OneOk(c, s')
  {
    hide BreadthFirst.Inv, Settling;
    NothingNew(c, s.visited, s.tasks[0]);
    NothingNew(c, s'.visited, s'.tasks[0]);
    BreadthFirst.DropSettled(c.Es(), c.starts[0], c.maxDepth, s.visited, s.tasks[0].queue);
  }

  lemma ClaimOne(c: Config, s: State, s': State)
    requires OneOk(c, s) && ClaimStep(c, s, s', 0)
    ensures OneOk(c, s')
  {
    hide BreadthFirst.Inv, BreadthFirst.Pushes, OutEdges, Allowed, Search.NewEntries;
    var t, t' := s.tasks[0], s'.tasks[0];
    var (id, d) := t.queue[0];
    NothingNew(c, s.visited, t);
    assert s'.visited.Keys == s.visited.Keys + {id};
    var pushed := if d < c.maxDepth then Search.NewEntries(Allowed(OutEdges(c.edges, id), c.filter),
      s'.visited.Keys, d) else [];
    if d < c.maxDepth {
      Search.ExpandPushes(c.edges, c.filter, s.visited, id, d);
    } else {
      NothingNew(c, s'.visited, t');
    }
    assert Settling(c, s'.visited, t') == t.queue[1..] + pushed;
    BreadthFirst.SettleFront(c.Es(), c.starts[0], c.maxDepth, s.visited, t.queue, pushed);
  }

  lemma EdgeOne(c: Config, s: State, s': State)
    requires OneOk(c, s) && EdgeStep(c, s, s', 0)
    ensures OneOk(c, s')
  {
    hide BreadthFirst.Inv, Settling;
    SettlingEdge(c, s.visited, s.tasks[0], s'.tasks[0]);
  }

  /** Looking at one edge leaves the queue to be settled as it is. */
  lemma SettlingEdge(c: Config, visited: map<Id, nat>, t: Task, t': Task)
    requires t.pending != [] && t'.pending == t.pending[1..] && t'.depth == t.depth
    requires var e := t.pending[0];
             t'.queue == t.queue + if !c.filter.Allows(e) || e.dst in visited then [] else [(e.dst, t.depth + 1)]
    ensures Settling(c, visited, t') == Settling(c, visited, t)
  {
    hide Allowed, Search.NewEntries;
    var e, kept := t.pending[0], Allowed(t'.pending, c.filter);
    Search.AllowedHead(t.pending, 0, c.filter);
    assert t.pending[0..] == t.pending;
    NewEntriesCons(e, kept, visited.Keys, t.depth);
    assert [] + kept == kept;
  }

  lemma MergeOne(c: Config, s: State, s': State)
    requires OneOk(c, s) && (ListStep(c, s, s', 0) || FinishStep(c, s, s', 0))
    ensures OneOk(c, s')
  {
    hide BreadthFirst.Inv;
  }

  lemma NextOne(c: Config, s: State, s': State)
    requires OneOk(c, s) && Next(c, s, s')
    ensures OneOk(c, s')
  {
    hide OneOk, SkipStep, ClaimStep, EdgeStep, ListStep, FinishStep;
    var i: nat :| TaskStep(c, s, s', i);
    assert i == 0 by { OnlyTask(c, s, s', i); }
    if SkipStep(c, s, s', 0) {
      SkipOne(c, s, s');
    } else if ClaimStep(c, s, s', 0) {
      ClaimOne(c, s, s');
    } else if EdgeStep(c, s, s', 0) {
      EdgeOne(c, s, s');
    } else {
      MergeOne(c, s, s');
    }
  }

  lemma OnlyTask(c: Config, s: State, s': State, i: nat)
    requires OneOk(c, s) && TaskStep(c, s, s', i)
    ensures i == 0
  {
  }

  lemma {:induction false} RunOne(c: Config, run: seq<State>, k: nat)
    requires IsRun(c, run) && k < |run| && |c.starts| == 1
    ensures OneOk(c, run[k])
  {
    hide OneOk, Next, Init;
    if k == 0 {
      InitOne(c, run[0]);
    } else {
      RunOne(c, run, k - 1);
      assert Next(c, run[k - 1], run[k - 1 + 1]);
      NextOne(c, run[k - 1], run[k]);
    }
  }

  /**
   * From a single start every finished schedule claims every id within the limit and lists every
   * edge below it, whatever the limit.
   */
  lemma SingleIsExact(c: Config, run: seq<State>)
    requires Finished(c, run) && |c.starts| == 1
    ensures AllIds(c, run[|run| - 1]) && AllEdges(c, run[|run| - 1])
  {
    hide Inv, OneOk, AllIds, AllEdges;
    RunInv(c, run, |run| - 1);
    RunOne(c, run, |run| - 1);
    FinishedOne(c, run[|run| - 1]);
  }

  lemma FinishedOne(c: Config, s: State)
    requires Inv(c, s) && OneOk(c, s) && AllDone(s)
    ensures AllIds(c, s) && AllEdges(c, s)
  {
    hide Inv, Distinct, Settling, Within, BreadthFirst.Inv, Allowed;
    FinishedLists(c, s);
    FinishedTask(c, s);
    NothingNew(c, s.visited, s.tasks[0]);
    assert c.Starts() == {c.starts[0]};
    Search.FinalDepths(c.Es(), c.starts[0], c.maxDepth, s.visited);
    forall x ensures x in s.visited && s.visited[x] < c.maxDepth <==>
      c.maxDepth > 0 && x in Within(c.Es(), c.Starts(), c.maxDepth - 1)
    {
      assert x in Search.Below(s.visited, c.maxDepth) <==> x in Search.Expanded(c.Es(), c.starts[0], c.maxDepth);
    }
  }

  lemma FinishedTask(c: Config, s: State)
    requires Inv(c, s) && AllDone(s) && |s.tasks| == 1
    ensures s.tasks[0].queue == [] && s.tasks[0].pending == []
  {
    assert TaskOk(c, s.visited, s.tasks[0]);
  }
}
