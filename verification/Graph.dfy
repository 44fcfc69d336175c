/**
 * The property graph as the searches see it, the meaning of "within k hops", and the one
 * queue invariant behind the breadth-first searches of src/query/executor.rs.
 */
module Graph {
  type Id = string

  datatype Edge = Edge(id: string, src: Id, dst: Id, kind: string)

  /** The edges a search may follow: all of them, or those of some listed types. */
  datatype Filter = AnyKind | Kinds(kinds: set<string>) {
    predicate Allows(e: Edge) {
      AnyKind? || e.kind in kinds
    }
  }

  /** The allowed edges among `es`, in order. */
  function Allowed(es: seq<Edge>, f: Filter): seq<Edge> {
    if es == [] then [] else (if f.Allows(es[0]) then [es[0]] else []) + Allowed(es[1..], f)
  }

  lemma {:induction false} AllowedIn(es: seq<Edge>, f: Filter, e: Edge)
    ensures e in Allowed(es, f) <==> e in es && f.Allows(e)
  {
    if es != [] {
      AllowedIn(es[1..], f, e);
      assert es == [es[0]] + es[1..];
    }
  }

  /** Without a filter every edge is allowed, with one exactly those of the listed types. */
  lemma AllowedMeans(es: seq<Edge>, kinds: set<string>, e: Edge)
    ensures e in Allowed(es, AnyKind) <==> e in es
    ensures e in Allowed(es, Kinds(kinds)) <==> e in es && e.kind in kinds
  {
    AllowedIn(es, AnyKind, e);
    AllowedIn(es, Kinds(kinds), e);
  }

  /** `get_edges_from`: the stored edges leaving a node, each once, in stored order. */
  function OutEdges(es: seq<Edge>, src: Id): seq<Edge> {
    if es == [] then [] else (if es[0].src == src then [es[0]] else []) + OutEdges(es[1..], src)
  }

  lemma {:induction false} OutEdgesIn(es: seq<Edge>, src: Id, e: Edge)
    ensures e in OutEdges(es, src) <==> e in es && e.src == src
  {
    if es != [] {
      OutEdgesIn(es[1..], src, e);
      assert es == [es[0]] + es[1..];
    }
  }

  ghost predicate Distinct<T>(s: seq<T>) {
    forall i, j :: 0 <= i < j < |s| ==> s[i] != s[j]
  }

  lemma DistinctConcat<T>(a: seq<T>, b: seq<T>)
    requires Distinct(a) && Distinct(b) && forall x :: x in a ==> x !in b
    ensures Distinct(a + b)
  {
    forall i, j | 0 <= i < j < |a + b| ensures (a + b)[i] != (a + b)[j] {
      if i < |a| <= j { assert (a + b)[i] in a && (a + b)[j] in b; }
    }
  }

  /** The ids reached from `starts` over at most `k` edges of `es`. */
  ghost function Within(es: seq<Edge>, starts: set<Id>, k: nat): set<Id> {
    if k == 0 then starts
    else
      var w := Within(es, starts, k - 1);
      w + set e | e in es && e.src in w :: e.dst
  }

  ghost function Universe(es: seq<Edge>, starts: set<Id>): set<Id> {
    starts + set e | e in es :: e.dst
  }

  lemma {:induction false} WithinGrows(es: seq<Edge>, starts: set<Id>, j: nat, k: nat)
    requires j <= k
    ensures Within(es, starts, j) <= Within(es, starts, k)
  {
    if j < k { WithinGrows(es, starts, j, k - 1); }
  }

  lemma WithinStep(es: seq<Edge>, starts: set<Id>, k: nat, e: Edge)
    requires e in es && e.src in Within(es, starts, k)
    ensures e.dst in Within(es, starts, k + 1)
  {
  }

  lemma {:induction false} WithinUniverse(es: seq<Edge>, starts: set<Id>, k: nat)
    ensures Within(es, starts, k) <= Universe(es, starts)
  {
    if k > 0 { WithinUniverse(es, starts, k - 1); }
  }

  ghost predicate Linked(es: seq<Edge>, a: Id, b: Id) {
    exists e :: e in es && e.src == a && e.dst == b
  }

  /** A walk over `es`: consecutive ids are joined by an edge. */
  ghost predicate IsWalk(es: seq<Edge>, p: seq<Id>) {
    && |p| > 0
    && forall i :: 0 <= i < |p| - 1 ==> Linked(es, p[i], p[i + 1])
  }

  /** An id lies within k hops exactly when a walk of at most k edges leads to it. */
  lemma {:induction false} WalkIsWithin(es: seq<Edge>, starts: set<Id>, p: seq<Id>)
    requires IsWalk(es, p) && p[0] in starts
    ensures p[|p| - 1] in Within(es, starts, |p| - 1)
    decreases |p|
  {
    if |p| > 1 {
      var q := p[..|p| - 1];
      forall i | 0 <= i < |q| - 1 ensures Linked(es, q[i], q[i + 1]) { assert Linked(es, p[i], p[i + 1]); }
      WalkIsWithin(es, starts, q);
      assert Linked(es, p[|p| - 2], p[|p| - 2 + 1]);
      var e :| e in es && e.src == p[|p| - 2] && e.dst == p[|p| - 1];
      WithinStep(es, starts, |p| - 2, e);
    }
  }

  lemma {:induction false} WithinHasWalk(es: seq<Edge>, starts: set<Id>, k: nat, x: Id) returns (p: seq<Id>)
    requires x in Within(es, starts, k)
    ensures IsWalk(es, p) && p[0] in starts && p[|p| - 1] == x && |p| - 1 <= k
  {
    if x in starts {
      p := [x];
    } else if x in Within(es, starts, k - 1) {
      p := WithinHasWalk(es, starts, k - 1, x);
    } else {
      var e :| e in es && e.src in Within(es, starts, k - 1) && e.dst == x;
      var q := WithinHasWalk(es, starts, k - 1, e.src);
      p := q + [x];
      assert Linked(es, e.src, x);
      forall i | 0 <= i < |p| - 2 ensures Linked(es, p[i], p[i + 1]) { assert Linked(es, q[i], q[i + 1]); }
    }
  }

  /** No two equal edges in the store means no two equal edges leaving a node. */
  lemma {:induction false} OutEdgesDistinct(es: seq<Edge>, src: Id)
    requires Distinct(es)
    ensures Distinct(OutEdges(es, src))
  {
    if es != [] {
      OutEdgesDistinct(es[1..], src);
      OutEdgesIn(es[1..], src, es[0]);
      assert es[0] !in es[1..];
    }
  }

  lemma {:induction false} AllowedDistinct(es: seq<Edge>, f: Filter)
    requires Distinct(es)
    ensures Distinct(Allowed(es, f))
  {
    if es != [] {
      AllowedDistinct(es[1..], f);
      AllowedIn(es[1..], f, es[0]);
      assert es[0] !in es[1..];
    }
  }
}

/**
 * A queue of (id, depth) entries and the depths at which ids were first taken from it.
 * `max` is the depth beyond which an id is not expanded.
 */
module BreadthFirst {
  import opened Graph

  type Entry = (Id, nat)

  /** Depths in the queue never fall, spread over at most one level, and lie above all settled depths. */
  ghost predicate Layered(settled: map<Id, nat>, queue: seq<Entry>) {
    && (forall i, j :: 0 <= i < j < |queue| ==> queue[i].1 <= queue[j].1)
    && (forall i, j :: 0 <= i < |queue| && 0 <= j < |queue| ==> queue[j].1 <= queue[i].1 + 1)
    && (forall v, i :: v in settled && 0 <= i < |queue| ==> settled[v] <= queue[i].1)
  }

  /** `x` has been settled at depth at most `d`, or waits in the queue at such a depth. */
  ghost predicate Reached(settled: map<Id, nat>, queue: seq<Entry>, x: Id, d: nat) {
    || (x in settled && settled[x] <= d)
    || (exists i :: 0 <= i < |queue| && queue[i].0 == x && queue[i].1 <= d)
  }

  /** Everything recorded is really that near. */
  ghost predicate Sound(es: seq<Edge>, start: Id, max: nat, settled: map<Id, nat>, queue: seq<Entry>) {
    && (forall v :: v in settled ==> settled[v] <= max && v in Within(es, {start}, settled[v]))
    && (forall i :: 0 <= i < |queue| ==> queue[i].1 <= max && queue[i].0 in Within(es, {start}, queue[i].1))
  }

  /** Everything one hop from an expanded id is recorded. */
  ghost predicate Complete(es: seq<Edge>, start: Id, max: nat, settled: map<Id, nat>, queue: seq<Entry>) {
    && Reached(settled, queue, start, 0)
    && forall e :: e in es && e.src in settled && settled[e.src] < max ==>
         Reached(settled, queue, e.dst, settled[e.src] + 1)
  }

  /** Ids are settled at their distance: no shorter way leads to them. */
  ghost predicate Nearest(es: seq<Edge>, start: Id, settled: map<Id, nat>) {
    forall v :: v in settled && settled[v] > 0 ==> v !in Within(es, {start}, settled[v] - 1)
  }

  ghost predicate Inv(es: seq<Edge>, start: Id, max: nat, settled: map<Id, nat>, queue: seq<Entry>) {
    && Layered(settled, queue)
    && Sound(es, start, max, settled, queue)
    && Complete(es, start, max, settled, queue)
    && Nearest(es, start, settled)
  }

  lemma SettledWithin(es: seq<Edge>, start: Id, max: nat, settled: map<Id, nat>, queue: seq<Entry>, v: Id)
    requires Inv(es, start, max, settled, queue) && v in settled
    ensures settled[v] <= max && v in Within(es, {start}, settled[v])
  {
  }

  lemma FrontWithin(es: seq<Edge>, start: Id, max: nat, settled: map<Id, nat>, queue: seq<Entry>)
    requires Inv(es, start, max, settled, queue) && queue != []
    ensures queue[0].1 <= max && queue[0].0 in Within(es, {start}, queue[0].1)
  {
  }

  lemma InitInv(es: seq<Edge>, start: Id, max: nat)
    ensures Inv(es, start, max, map[], [(start, 0)])
  {
    var queue: seq<Entry> := [(start, 0)];
    assert queue[0].0 == start;
  }

  /** When the whole queue lies deeper than k, everything within k hops has been settled. */
  lemma {:induction false} Covered(es: seq<Edge>, start: Id, max: nat, settled: map<Id, nat>, queue: seq<Entry>,
                                   k: nat, x: Id)
    requires Inv(es, start, max, settled, queue)
    requires k <= max && forall i :: 0 <= i < |queue| ==> queue[i].1 > k
    requires x in Within(es, {start}, k)
    ensures x in settled && settled[x] <= k
    decreases k
  {
    if k > 0 {
      if x in Within(es, {start}, k - 1) {
        Covered(es, start, max, settled, queue, k - 1, x);
      } else {
        var e :| e in es && e.src in Within(es, {start}, k - 1) && e.dst == x;
        Covered(es, start, max, settled, queue, k - 1, e.src);
        assert Reached(settled, queue, e.dst, settled[e.src] + 1);
      }
    } else {
      assert Reached(settled, queue, start, 0);
    }
  }

  /** Dropping an entry whose id is already settled keeps the invariant. */
  lemma DropSettled(es: seq<Edge>, start: Id, max: nat, settled: map<Id, nat>, queue: seq<Entry>)
    requires Inv(es, start, max, settled, queue) && queue != [] && queue[0].0 in settled
    ensures Inv(es, start, max, settled, queue[1..])
  {
    forall x, d: nat | Reached(settled, queue, x, d) ensures Reached(settled, queue[1..], x, d) {
      if !(x in settled && settled[x] <= d) {
        var i :| 0 <= i < |queue| && queue[i].0 == x && queue[i].1 <= d;
        assert i > 0 && queue[1..][i - 1] == queue[i];
      }
    }
  }

  /** The first unsettled id in the queue is at exactly the depth its entry says. */
  lemma FrontIsNearest(es: seq<Edge>, start: Id, max: nat, settled: map<Id, nat>, queue: seq<Entry>)
    requires Inv(es, start, max, settled, queue) && queue != [] && queue[0].0 !in settled
    ensures queue[0].1 > 0 ==> queue[0].0 !in Within(es, {start}, queue[0].1 - 1)
  {
    var (x, d) := queue[0];
    if d > 0 && x in Within(es, {start}, d - 1) {
      Covered(es, start, max, settled, queue, d - 1, x);
      assert false;
    }
  }

  /** What expanding the front entry pushes: a next-level entry for every hop not yet settled. */
  ghost predicate Pushes(es: seq<Edge>, x: Id, d: nat, settled: map<Id, nat>, pushed: seq<Entry>) {
    && (forall i :: 0 <= i < |pushed| ==>
          pushed[i].1 == d + 1 && Linked(es, x, pushed[i].0))
    && (forall y :: Linked(es, x, y) ==> y in settled || y == x || (y, d + 1) in pushed)
  }

  /** Settling the front entry, and pushing its hops unless it lies at the limit, keeps the invariant. */
  lemma SettleFront(es: seq<Edge>, start: Id, max: nat, settled: map<Id, nat>, queue: seq<Entry>, pushed: seq<Entry>)
    requires Inv(es, start, max, settled, queue) && queue != [] && queue[0].0 !in settled
    requires if queue[0].1 < max then Pushes(es, queue[0].0, queue[0].1, settled, pushed) else pushed == []
    ensures Inv(es, start, max, settled[queue[0].0 := queue[0].1], queue[1..] + pushed)
  {
    SettleSound(es, start, max, settled, queue, pushed);
    SettleComplete(es, start, max, settled, queue, pushed);
    FrontIsNearest(es, start, max, settled, queue);
    SettleNearest(es, start, settled, queue[0].0, queue[0].1);
  }

  lemma SettleNearest(es: seq<Edge>, start: Id, settled: map<Id, nat>, x: Id, d: nat)
    requires Nearest(es, start, settled) && (d > 0 ==> x !in Within(es, {start}, d - 1))
    ensures Nearest(es, start, settled[x := d])
  {
  }

  lemma SettleComplete(es: seq<Edge>, start: Id, max: nat, settled: map<Id, nat>, queue: seq<Entry>, pushed: seq<Entry>)
    requires Inv(es, start, max, settled, queue) && queue != [] && queue[0].0 !in settled
    requires if queue[0].1 < max then Pushes(es, queue[0].0, queue[0].1, settled, pushed) else pushed == []
    ensures Complete(es, start, max, settled[queue[0].0 := queue[0].1], queue[1..] + pushed)
  {
    hide Reached, Sound, Nearest, Within;
    var (x, d) := queue[0];
    var settled', queue' := settled[x := d], queue[1..] + pushed;
    forall y, k: nat | Reached(settled, queue, y, k) ensures Reached(settled', queue', y, k) {
      StaysReached(settled, queue, pushed, y, k);
    }
    forall e | e in es && e.src in settled' && settled'[e.src] < max
      ensures Reached(settled', queue', e.dst, settled'[e.src] + 1)
    {
      if e.src != x {
        assert Reached(settled, queue, e.dst, settled[e.src] + 1);
      } else {
        assert Linked(es, x, e.dst);
        HopIsReached(max, settled, queue, pushed, e.dst);
      }
    }
  }

  lemma HopIsReached(max: nat, settled: map<Id, nat>, queue: seq<Entry>, pushed: seq<Entry>, y: Id)
    requires queue != [] && (forall v :: v in settled ==> settled[v] <= queue[0].1)
    requires y in settled || y == queue[0].0 || (y, queue[0].1 + 1) in pushed
    ensures Reached(settled[queue[0].0 := queue[0].1], queue[1..] + pushed, y, queue[0].1 + 1)
  {
    var queue' := queue[1..] + pushed;
    if !(y in settled || y == queue[0].0) {
      var i :| 0 <= i < |pushed| && pushed[i] == (y, queue[0].1 + 1);
      assert queue'[|queue| - 1 + i] == pushed[i];
    }
  }

  lemma StaysReached(settled: map<Id, nat>, queue: seq<Entry>, pushed: seq<Entry>, y: Id, k: nat)
    requires queue != [] && queue[0].0 !in settled && Reached(settled, queue, y, k)
    ensures Reached(settled[queue[0].0 := queue[0].1], queue[1..] + pushed, y, k)
  {
    if !(y in settled && settled[y] <= k) {
      var i :| 0 <= i < |queue| && queue[i].0 == y && queue[i].1 <= k;
      if i > 0 { assert (queue[1..] + pushed)[i - 1] == queue[i]; }
    }
  }

  lemma SettleSound(es: seq<Edge>, start: Id, max: nat, settled: map<Id, nat>, queue: seq<Entry>, pushed: seq<Entry>)
    requires Inv(es, start, max, settled, queue) && queue != [] && queue[0].0 !in settled
    requires if queue[0].1 < max then Pushes(es, queue[0].0, queue[0].1, settled, pushed) else pushed == []
    ensures var settled', queue' := settled[queue[0].0 := queue[0].1], queue[1..] + pushed;
            Layered(settled', queue') && Sound(es, start, max, settled', queue')
  {
    SettleQueueSound(es, start, max, settled, queue, pushed);
    SettleLayered(es, start, max, settled, queue, pushed);
  }

  lemma SettleQueueSound(es: seq<Edge>, start: Id, max: nat, settled: map<Id, nat>, queue: seq<Entry>,
                         pushed: seq<Entry>)
    requires Inv(es, start, max, settled, queue) && queue != [] && queue[0].0 !in settled
    requires if queue[0].1 < max then Pushes(es, queue[0].0, queue[0].1, settled, pushed) else pushed == []
    ensures Sound(es, start, max, settled[queue[0].0 := queue[0].1], queue[1..] + pushed)
  {
    hide Within, Layered, Complete, Nearest;
    var (x, d) := queue[0];
    forall j | 0 <= j < |pushed| ensures pushed[j].0 in Within(es, {start}, pushed[j].1) && pushed[j].1 <= max {
      assert Linked(es, x, pushed[j].0);
      var e :| e in es && e.src == x && e.dst == pushed[j].0;
      WithinStep(es, {start}, d, e);
    }
  }

  lemma SettleLayered(es: seq<Edge>, start: Id, max: nat, settled: map<Id, nat>, queue: seq<Entry>, pushed: seq<Entry>)
    requires Inv(es, start, max, settled, queue) && queue != [] && queue[0].0 !in settled
    requires if queue[0].1 < max then Pushes(es, queue[0].0, queue[0].1, settled, pushed) else pushed == []
    ensures Layered(settled[queue[0].0 := queue[0].1], queue[1..] + pushed)
  {
    hide Within, Sound, Complete, Nearest, Linked;
    var d, rest := queue[0].1, queue[1..];
    forall i | 0 <= i < |rest| ensures d <= rest[i].1 <= d + 1 {
      assert rest[i] == queue[i + 1];
    }
  }
}
