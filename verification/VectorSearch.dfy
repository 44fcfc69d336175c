/**
 * The layer search of the vector index (src/storage/vector_index.rs, `search_layer`). Distances
 * are real numbers; a heap is a set from which a nearest (or a farthest) member is taken, so
 * ties may break either way.
 */
module VectorSearch {
  import opened Graph

  type Vector = seq<real>

  datatype Entry = Entry(vector: Vector, neighbors: seq<seq<Id>>)

  type Distance = (Vector, Vector) -> real

  /** A stored id and how far it lies from the query. */
  datatype Hit = Hit(id: Id, distance: real)

  function Flatten(layers: seq<seq<Id>>): seq<Id> {
    if layers == [] then [] else layers[0] + Flatten(layers[1..])
  }

  /** What a search works on: the stored entries, the distance and the query. */
  datatype Space = Space(vectors: map<Id, Entry>, dist: Distance, query: Vector) {
    function At(x: Id): real {
      if x in vectors then dist(query, vectors[x].vector) else 0.0
    }

    function Links(x: Id): seq<Id> {
      if x in vectors then Flatten(vectors[x].neighbors) else []
    }
  }

  function MinNat(a: nat, b: nat): nat { if a <= b then a else b }

  /** `best` holds the `ef` nearest of `seen`, or all of them if there are fewer. */
  ghost predicate Nearest(sp: Space, best: set<Id>, seen: set<Id>, ef: nat) {
    && best <= seen
    && |best| == MinNat(ef, |seen|)
    && forall b, x :: b in best && x in seen && x !in best ==> sp.At(b) <= sp.At(x)
  }

  /** Every stored link of a member of `best` was evaluated, except for those still in `open`. */
  ghost predicate Explored(sp: Space, best: set<Id>, seen: set<Id>, open: set<Id>) {
    forall x, y :: x in best && x !in open && y in sp.Links(x) && y in sp.vectors ==> y in seen
  }

  // ---------- taking the nearest and the farthest ----------

  lemma {:induction false} NearestExists(sp: Space, s: set<Id>) returns (x: Id)
    requires s != {}
    ensures x in s && forall y :: y in s ==> sp.At(x) <= sp.At(y)
    decreases |s|
  {
    x :| x in s;
    if s != {x} {
      var rest := s - {x};
      assert s == {x} + rest;
      var y := NearestExists(sp, rest);
      if sp.At(y) < sp.At(x) { x := y; }
    }
  }

  lemma {:induction false} FarthestExists(sp: Space, s: set<Id>) returns (x: Id)
    requires s != {}
    ensures x in s && forall y :: y in s ==> sp.At(y) <= sp.At(x)
    decreases |s|
  {
    x :| x in s;
    if s != {x} {
      var rest := s - {x};
      assert s == {x} + rest;
      var y := FarthestExists(sp, rest);
      if sp.At(x) < sp.At(y) { x := y; }
    }
  }

  method PeekNearest(sp: Space, s: set<Id>) returns (x: Id)
    requires s != {}
    ensures x in s && forall y :: y in s ==> sp.At(x) <= sp.At(y)
  {
    ghost var w := NearestExists(sp, s);
    x :| x in s && forall y :: y in s ==> sp.At(x) <= sp.At(y);
  }

  method PeekFarthest(sp: Space, s: set<Id>) returns (x: Id)
    requires s != {}
    ensures x in s && forall y :: y in s ==> sp.At(y) <= sp.At(x)
  {
    ghost var w := FarthestExists(sp, s);
    x :| x in s && forall y :: y in s ==> sp.At(y) <= sp.At(x);
  }

  // ---------- keeping the nearest ----------

  /** A new entry no nearer than the worst of a full result changes nothing. */
  lemma NearestReject(sp: Space, best: set<Id>, seen: set<Id>, ef: nat, worst: Id, x: Id)
    requires Nearest(sp, best, seen, ef) && x !in seen && |best| >= ef
    requires worst in best && (forall y :: y in best ==> sp.At(y) <= sp.At(worst)) && sp.At(worst) <= sp.At(x)
    ensures Nearest(sp, best, seen + {x}, ef)
  {
  }

  /** A new entry added to a result that is not full. */
  lemma NearestAdd(sp: Space, best: set<Id>, seen: set<Id>, ef: nat, x: Id)
    requires Nearest(sp, best, seen, ef) && x !in seen && |best| < ef
    ensures Nearest(sp, best + {x}, seen + {x}, ef) && best == seen
  {
    assert |seen| == |best| + |seen - best| by { assert seen == best + (seen - best); }
  }

  /** A new entry nearer than the worst of a full result pushes the worst out. */
  lemma NearestReplace(sp: Space, best: set<Id>, seen: set<Id>, ef: nat, worst: Id, x: Id, out: Id)
    requires Nearest(sp, best, seen, ef) && x !in seen && |best| == ef
    requires worst in best && (forall y :: y in best ==> sp.At(y) <= sp.At(worst)) && sp.At(x) < sp.At(worst)
    requires out in best + {x} && forall y :: y in best + {x} ==> sp.At(y) <= sp.At(out)
    ensures Nearest(sp, best + {x} - {out}, seen + {x}, ef)
  {
    assert |best + {x}| == ef + 1;
    var best' := best + {x} - {out};
    forall b, y | b in best' && y in seen + {x} && y !in best' ensures sp.At(b) <= sp.At(y) {
      if y != out && b == x { assert sp.At(worst) <= sp.At(y); }
    }
  }

  /** One neighbour: skip it if seen or gone, otherwise measure it and keep it if it is among the best so far. */
  method Evaluate(sp: Space, x: Id, ef: nat, seen: set<Id>, open: set<Id>, best: set<Id>)
    returns (seen': set<Id>, open': set<Id>, best': set<Id>)
    requires ef >= 1 && best != {} && seen <= sp.vectors.Keys && open <= seen && Nearest(sp, best, seen, ef)
    ensures seen' == (if x in sp.vectors then seen + {x} else seen)
    ensures best' != {} && Nearest(sp, best', seen', ef)
    ensures open' <= seen' && (open' == open || open' == open + {x})
    ensures best' <= best + {x} && (x in best' ==> x in best || x in open')
    ensures seen' == seen ==> open' == open
  {
    seen', open', best' := seen, open, best;
    if x in seen || x !in sp.vectors {
      assert x in sp.vectors ==> seen + {x} == seen;
      return;
    }
    seen' := seen + {x};
    var worst := PeekFarthest(sp, best);
    if sp.At(x) < sp.At(worst) || |best| < ef {
      open', best' := open + {x}, best + {x};
      if |best'| > ef {
        var out := PeekFarthest(sp, best');
        NearestReplace(sp, best, seen, ef, worst, x, out);
        best' := best' - {out};
      } else {
        NearestAdd(sp, best, seen, ef, x);
      }
    } else {
      NearestReject(sp, best, seen, ef, worst, x);
    }
    assert |best'| == MinNat(ef, |seen'|) && |seen'| >= 1;
  }

  /** `hits` lists `best` in ascending order of distance. */
  ghost predicate Ascending(sp: Space, best: set<Id>, hits: seq<Hit>) {
    && (forall i :: 0 <= i < |hits| ==> hits[i].id in best && hits[i].distance == sp.At(hits[i].id))
    && (forall i, j :: 0 <= i < j < |hits| ==> hits[i].id != hits[j].id && hits[i].distance <= hits[j].distance)
    && (forall x :: x in best ==> Listed(hits, x))
    && |hits| == |best|
  }

  /** Sorting has listed `best - rest`, and nothing in `rest` is nearer than what is listed. */
  ghost predicate Sorted(sp: Space, best: set<Id>, rest: set<Id>, hits: seq<Hit>) {
    && rest <= best
    && Ascending(sp, best - rest, hits)
    && forall i, x :: 0 <= i < |hits| && x in rest ==> hits[i].distance <= sp.At(x)
  }

  lemma SortedStart(sp: Space, best: set<Id>)
    ensures Sorted(sp, best, best, [])
  {
    assert best - best == {};
  }

  lemma SortedStep(sp: Space, best: set<Id>, rest: set<Id>, hits: seq<Hit>, x: Id)
    requires Sorted(sp, best, rest, hits) && x in rest && forall y :: y in rest ==> sp.At(x) <= sp.At(y)
    ensures Sorted(sp, best, rest - {x}, hits + [Hit(x, sp.At(x))])
  {
    hide Ascending;
    AscendingSnoc(sp, best - rest, hits, x);
    assert best - (rest - {x}) == best - rest + {x};
  }

  lemma SortedDone(sp: Space, best: set<Id>, hits: seq<Hit>)
    requires Sorted(sp, best, {}, hits)
    ensures Ascending(sp, best, hits)
  {
    assert best - {} == best;
  }

  method SortHits(sp: Space, best: set<Id>) returns (hits: seq<Hit>)
    ensures Ascending(sp, best, hits)
  {
    hide Ascending, Sorted;
    SortedStart(sp, best);
    hits := [];
    var rest := best;
    while rest != {}
      invariant Sorted(sp, best, rest, hits)
      decreases |rest|
    {
      var x := PeekNearest(sp, rest);
      SortedStep(sp, best, rest, hits, x);
      rest := rest - {x};
      hits := hits + [Hit(x, sp.At(x))];
    }
    SortedDone(sp, best, hits);
  }

  lemma ListedSnoc(hits: seq<Hit>, h: Hit, y: Id)
    requires y == h.id || Listed(hits, y)
    ensures Listed(hits + [h], y)
  {
    if y == h.id {
      assert (hits + [h])[|hits|].id == y;
    } else {
      var i :| 0 <= i < |hits| && hits[i].id == y;
      assert (hits + [h])[i].id == y;
    }
  }

  lemma AscendingSnoc(sp: Space, done: set<Id>, hits: seq<Hit>, x: Id)
    requires Ascending(sp, done, hits) && x !in done
    requires forall i :: 0 <= i < |hits| ==> hits[i].distance <= sp.At(x)
    ensures Ascending(sp, done + {x}, hits + [Hit(x, sp.At(x))])
  {
    hide Listed;
    var hits' := hits + [Hit(x, sp.At(x))];
    forall y | y in done + {x} ensures Listed(hits', y) {
      ListedSnoc(hits, Hit(x, sp.At(x)), y);
    }
    assert forall i :: 0 <= i < |hits| ==> hits'[i] == hits[i];
  }

  // ---------- the search ----------

  /**
   * The search ends and returns, in ascending order, the `ef` nearest of all entries it evaluated.
   * What it evaluated holds the entry point and every stored link of every returned entry, so no
   * link of a returned entry leads to a nearer one that is missing.
   */
  method SearchLayer(sp: Space, entry: Id, ef: nat) returns (hits: seq<Hit>, ghost seen: set<Id>, ghost best: set<Id>)
    requires ef >= 1
    ensures entry !in sp.vectors ==> hits == [] && seen == {}
    ensures entry in sp.vectors ==> entry in seen
    ensures seen <= sp.vectors.Keys && Nearest(sp, best, seen, ef) && Ascending(sp, best, hits)
    ensures Explored(sp, best, seen, {})
    ensures LocallyNearest(sp, entry, ef, hits) && IsNearestList(sp, seen, hits, ef)
  {
    hide Nearest, Explored, Ascending, LocallyNearest, IsNearestList;
    SearchStarts(sp, entry, ef);
    if entry !in sp.vectors {
      hits, seen, best := [], {}, {};
      return;
    }
    var visited: set<Id>, open: set<Id>, results: set<Id> := {entry}, {entry}, {entry};
    ghost var left := sp.vectors.Keys - visited;
    while open != {}
      invariant entry in visited && visited <= sp.vectors.Keys && open <= visited && results != {}
      invariant left == sp.vectors.Keys - visited
      invariant Nearest(sp, results, visited, ef)
      invariant Explored(sp, results, visited, open)
      decreases |left|, |open|
    {
      var current := PeekNearest(sp, open);
      var worst := PeekFarthest(sp, results);
      if sp.At(current) > sp.At(worst) && |results| >= ef {
        assert results !! open;
        break;
      }
      assert open - {current} + {current} == open;
      open := open - {current};
      visited, open, results := ExpandLinks(sp, current, ef, visited, open, results);
      LeftShrinks(sp, left, visited);
      left := sp.vectors.Keys - visited;
    }
    ExploredWithout(sp, results, visited, open);
    seen, best := visited, results;
    hits := SortHits(sp, results);
    ExploredIsLocal(sp, entry, ef, hits, seen, best);
    NearestPrefix(sp, best, seen, ef, hits, ef);
    HitsWithin(sp, best, seen, ef, hits);
    assert hits[..|hits|] == hits;
  }

  lemma HitsWithin(sp: Space, best: set<Id>, seen: set<Id>, ef: nat, hits: seq<Hit>)
    requires Nearest(sp, best, seen, ef) && Ascending(sp, best, hits)
    ensures |hits| <= ef
  {
  }

  lemma SearchStarts(sp: Space, entry: Id, ef: nat)
    requires ef >= 1
    ensures entry in sp.vectors ==> Nearest(sp, {entry}, {entry}, ef) && Explored(sp, {entry}, {entry}, {entry})
    ensures entry !in sp.vectors ==>
      && Nearest(sp, {}, {}, ef) && Ascending(sp, {}, []) && Explored(sp, {}, {}, {})
      && LocallyNearest(sp, entry, ef, []) && IsNearestList(sp, {}, [], ef)
  {
  }

  lemma ExploredWithout(sp: Space, best: set<Id>, seen: set<Id>, open: set<Id>)
    requires Explored(sp, best, seen, open) && best !! open
    ensures Explored(sp, best, seen, {})
  {
  }

  /** The entry point, or a link of a listed entry. */
  ghost predicate Offered(sp: Space, entry: Id, hits: seq<Hit>, y: Id) {
    y in sp.vectors && (y == entry || exists i :: 0 <= i < |hits| && y in sp.Links(hits[i].id))
  }

  /**
   * `hits` lists at most `k` stored entries, once each with their distances, ascending; an entry
   * offered but not listed is no nearer than any that is, and the list is then full.
   */
  ghost predicate LocallyNearest(sp: Space, entry: Id, k: nat, hits: seq<Hit>) {
    && |hits| <= k
    && (forall i :: 0 <= i < |hits| ==>
          hits[i].id in sp.vectors && hits[i].distance == sp.dist(sp.query, sp.vectors[hits[i].id].vector))
    && (forall i, j :: 0 <= i < j < |hits| ==> hits[i].id != hits[j].id && hits[i].distance <= hits[j].distance)
    && (forall y :: Offered(sp, entry, hits, y) && !Listed(hits, y) ==>
          |hits| == k && forall j :: 0 <= j < |hits| ==> hits[j].distance <= sp.dist(sp.query, sp.vectors[y].vector))
  }

  lemma UnofferedIsFarther(sp: Space, entry: Id, ef: nat, hits: seq<Hit>, seen: set<Id>, best: set<Id>, y: Id)
    requires (entry in sp.vectors ==> entry in seen) && seen <= sp.vectors.Keys
    requires Nearest(sp, best, seen, ef) && Ascending(sp, best, hits) && Explored(sp, best, seen, {})
    requires Offered(sp, entry, hits, y) && !Listed(hits, y)
    ensures |hits| == ef && forall j :: 0 <= j < |hits| ==> hits[j].distance <= sp.dist(sp.query, sp.vectors[y].vector)
  {
    hide Listed;
    assert y in seen && y !in best;
    assert |seen| == |best| + |seen - best| by { assert seen == best + (seen - best); }
    assert sp.At(y) == sp.dist(sp.query, sp.vectors[y].vector);
  }

  lemma AscendingStored(sp: Space, best: set<Id>, hits: seq<Hit>)
    requires Ascending(sp, best, hits) && best <= sp.vectors.Keys
    ensures forall i :: 0 <= i < |hits| ==>
      (hits[i].id in sp.vectors && hits[i].distance == sp.dist(sp.query, sp.vectors[hits[i].id].vector))
    ensures forall i, j :: 0 <= i < j < |hits| ==> hits[i].id != hits[j].id && hits[i].distance <= hits[j].distance
  {
  }

  lemma ExploredIsLocal(sp: Space, entry: Id, ef: nat, hits: seq<Hit>, seen: set<Id>, best: set<Id>)
    requires (entry in sp.vectors ==> entry in seen) && seen <= sp.vectors.Keys
    requires Nearest(sp, best, seen, ef) && Ascending(sp, best, hits) && Explored(sp, best, seen, {})
    ensures LocallyNearest(sp, entry, ef, hits)
  {
    HitsWithin(sp, best, seen, ef, hits);
    assert best <= seen;
    AscendingStored(sp, best, hits);
    hide Nearest, Ascending, Explored, Offered, Listed;
    forall y | Offered(sp, entry, hits, y) && !Listed(hits, y)
      ensures |hits| == ef
      ensures forall j :: 0 <= j < |hits| ==> hits[j].distance <= sp.dist(sp.query, sp.vectors[y].vector)
    {
      UnofferedIsFarther(sp, entry, ef, hits, seen, best, y);
    }
  }

  lemma LocalPrefix(sp: Space, entry: Id, ef: nat, hits: seq<Hit>, k: nat)
    requires LocallyNearest(sp, entry, ef, hits)
    ensures LocallyNearest(sp, entry, MinNat(k, ef), hits[..MinNat(k, |hits|)])
  {
    var n := MinNat(k, |hits|);
    var top := hits[..n];
    forall y | Offered(sp, entry, top, y) && !Listed(top, y)
      ensures n == MinNat(k, ef)
      ensures forall j :: 0 <= j < n ==> top[j].distance <= sp.dist(sp.query, sp.vectors[y].vector)
    {
      assert Offered(sp, entry, hits, y);
      if Listed(hits, y) {
        var i :| 0 <= i < |hits| && hits[i].id == y;
        UnlistedIsLater(hits, n, i);
      }
    }
  }

  lemma UnlistedIsLater(hits: seq<Hit>, n: nat, i: nat)
    requires n <= |hits| && i < |hits| && !Listed(hits[..n], hits[i].id)
    ensures n <= i
  {
    assert forall j :: 0 <= j < n ==> hits[..n][j].id == hits[j].id;
  }

  lemma LeftShrinks(sp: Space, left: set<Id>, visited: set<Id>)
    requires sp.vectors.Keys - visited <= left
    ensures |sp.vectors.Keys - visited| <= |left|
    ensures |sp.vectors.Keys - visited| == |left| ==> sp.vectors.Keys - visited == left
  {
    var now := sp.vectors.Keys - visited;
    assert left == now + (left - now);
  }

  /** The loop over one entry's links, layer by layer. */
  method ExpandLinks(sp: Space, x: Id, ef: nat, seen: set<Id>, open: set<Id>, best: set<Id>)
    returns (seen': set<Id>, open': set<Id>, best': set<Id>)
    requires ef >= 1 && best != {} && x in seen && seen <= sp.vectors.Keys && open <= seen && x !in open
    requires Nearest(sp, best, seen, ef) && Explored(sp, best, seen, open + {x})
    ensures seen <= seen' <= sp.vectors.Keys && open' <= seen' && best' != {}
    ensures Nearest(sp, best', seen', ef) && Explored(sp, best', seen', open')
    ensures seen' == seen ==> open' == open
  {
    hide Nearest;
    seen', open', best' := seen, open, best;
    var links := Flatten(sp.vectors[x].neighbors);
    for i := 0 to |links|
      invariant seen <= seen' <= sp.vectors.Keys && open' <= seen' && best' != {} && Nearest(sp, best', seen', ef)
      invariant x !in open'
      invariant seen' == seen ==> open' == open
      invariant Explored(sp, best', seen', open' + {x})
      invariant forall j :: 0 <= j < i && links[j] in sp.vectors ==> links[j] in seen'
    {
      seen', open', best' := Evaluate(sp, links[i], ef, seen', open', best');
    }
    assert Explored(sp, best', seen', open') by {
      assert sp.Links(x) == links;
    }
  }

  // ---------- a search wide enough for everything ----------

  /** The first `k` of the ascending list of the `ef` nearest are the `k` nearest. */
  lemma NearestPrefix(sp: Space, best: set<Id>, seen: set<Id>, ef: nat, hits: seq<Hit>, k: nat)
    requires Nearest(sp, best, seen, ef) && Ascending(sp, best, hits) && k <= ef && seen <= sp.vectors.Keys
    ensures IsNearestList(sp, seen, hits[..MinNat(k, |hits|)], k)
  {
    var n := MinNat(k, |hits|);
    var top := hits[..n];
    forall x | x in seen ensures sp.At(x) == sp.dist(sp.query, sp.vectors[x].vector) {}
    forall i, x | 0 <= i < n && x in seen && !Listed(top, x) ensures top[i].distance <= sp.At(x) {
      UnlistedIsFarther(sp, best, seen, ef, hits, n, i, x);
    }
  }

  lemma UnlistedIsFarther(sp: Space, best: set<Id>, seen: set<Id>, ef: nat, hits: seq<Hit>, n: nat, i: nat, x: Id)
    requires Nearest(sp, best, seen, ef) && Ascending(sp, best, hits) && i < n <= |hits|
    requires x in seen && !Listed(hits[..n], x)
    ensures hits[i].distance <= sp.At(x)
  {
    if x in best {
      assert Listed(hits, x);
      var j :| 0 <= j < |hits| && hits[j].id == x;
      UnlistedIsLater(hits, n, j);
    }
  }

  predicate Listed(hits: seq<Hit>, x: Id) {
    exists i :: 0 <= i < |hits| && hits[i].id == x
  }

  /**
   * What a brute-force scan of `all` answers: `k` distinct members (all of them if there are
   * fewer), each with its distance, in ascending order, none left out that is nearer.
   */
  ghost predicate IsNearestList(sp: Space, all: set<Id>, hits: seq<Hit>, k: nat) {
    && all <= sp.vectors.Keys && |hits| == MinNat(k, |all|)
    && (forall i :: 0 <= i < |hits| ==>
          hits[i].id in all && hits[i].distance == sp.dist(sp.query, sp.vectors[hits[i].id].vector))
    && (forall i, j :: 0 <= i < j < |hits| ==> hits[i].id != hits[j].id && hits[i].distance <= hits[j].distance)
    && (forall i, x :: 0 <= i < |hits| && x in all && !Listed(hits, x) ==>
          hits[i].distance <= sp.dist(sp.query, sp.vectors[x].vector))
  }
}
