/**
 * The vector index itself (src/storage/vector_index.rs): insertion, removal and search over one
 * table of linked entries. The metric, the normalisation and the layer drawn for an id are
 * functions the index is given.
 */
module VectorIndex {
  import opened Wrappers
  import opened Graph
  import opened VectorSearch

  // ---------- links ----------

  /** The back link from an entry that still has room on its lowest layer. */
  function Link(e: Entry, id: Id, max: nat): Entry {
    if |e.neighbors| > 0 && |e.neighbors[0]| < max
    then e.(neighbors := e.neighbors[0 := e.neighbors[0] + [id]])
    else e
  }

  function Without(links: seq<Id>, id: Id): (r: seq<Id>)
    ensures |r| <= |links|
    ensures forall x :: x in r <==> x in links && x != id
  {
    if links == [] then []
    else if links[0] == id then Without(links[1..], id)
    else [links[0]] + Without(links[1..], id)
  }

  function Unlink(e: Entry, id: Id): Entry {
    e.(neighbors := seq(|e.neighbors|, i requires 0 <= i < |e.neighbors| => Without(e.neighbors[i], id)))
  }

  lemma {:induction false} WithoutTwice(links: seq<Id>, id: Id)
    requires id !in links
    ensures Without(links, id) == links
  {
    if links != [] {
      WithoutTwice(links[1..], id);
    }
  }

  lemma UnlinkTwice(e: Entry, id: Id)
    ensures Unlink(Unlink(e, id), id) == Unlink(e, id)
  {
    forall i | 0 <= i < |e.neighbors| ensures Without(Unlink(e, id).neighbors[i], id) == Unlink(e, id).neighbors[i] {
      WithoutTwice(Without(e.neighbors[i], id), id);
    }
  }

  /** Links are kept on the lowest layer only, and no more than `max` of them. */
  ghost predicate Bounded(e: Entry, max: nat) {
    && |e.neighbors| >= 1
    && |e.neighbors[0]| <= max
    && forall i :: 1 <= i < |e.neighbors| ==> e.neighbors[i] == []
  }

  lemma {:induction false} FlattenEmpty(layers: seq<seq<Id>>)
    requires forall i :: 0 <= i < |layers| ==> layers[i] == []
    ensures Flatten(layers) == []
  {
    if layers != [] {
      FlattenEmpty(layers[1..]);
    }
  }

  /** An entry's links over all its layers together stay within the bound. */
  lemma BoundedDegree(e: Entry, max: nat)
    requires Bounded(e, max)
    ensures Flatten(e.neighbors) == e.neighbors[0] && |Flatten(e.neighbors)| <= max
  {
    FlattenEmpty(e.neighbors[1..]);
  }

  /** All entries are within the bound, and there is an entry point exactly when there is an entry. */
  ghost predicate Sound(vectors: map<Id, Entry>, entry: Option<Id>, max: nat) {
    && (entry.Some? <==> vectors.Keys != {})
    && (entry.Some? ==> entry.value in vectors)
    && forall x :: x in vectors ==> Bounded(vectors[x], max)
  }

  predicate LinksTo(e: Entry, y: Id) {
    |e.neighbors| >= 1 && y in e.neighbors[0]
  }

  predicate FewerThan(e: Entry, n: nat) {
    |e.neighbors| >= 1 && |e.neighbors[0]| < n
  }

  /** Every two entries are linked, once each way. */
  ghost predicate Complete(vectors: map<Id, Entry>) {
    && (forall x :: x in vectors ==> FewerThan(vectors[x], |vectors|))
    && (forall x, y :: x in vectors && y in vectors && x != y ==> LinksTo(vectors[x], y))
  }

  // ---------- what the operations do to the table ----------

  function Fresh(v: Vector, links: seq<Id>, layer: nat): Entry {
    Entry(v, [links] + seq(layer, i => []))
  }

  function LinkAll(vectors: map<Id, Entry>, taken: seq<Id>, id: Id, max: nat): (r: map<Id, Entry>)
    ensures r.Keys == vectors.Keys
  {
    map x | x in vectors :: if x in taken then Link(vectors[x], id, max) else vectors[x]
  }

  /** The table after `id` joins it, linked with `taken`. */
  function Joined(vectors: map<Id, Entry>, taken: seq<Id>, id: Id, v: Vector, layer: nat, max: nat): map<Id, Entry> {
    LinkAll(vectors, taken, id, max)[id := Fresh(v, taken, layer)]
  }

  function UnlinkAll(vectors: map<Id, Entry>, links: seq<Id>, id: Id): (r: map<Id, Entry>)
    ensures r.Keys == vectors.Keys
  {
    map x | x in vectors :: if x in links then Unlink(vectors[x], id) else vectors[x]
  }

  function Ids(hits: seq<Hit>): seq<Id> {
    seq(|hits|, i requires 0 <= i < |hits| => hits[i].id)
  }

  lemma NoIds()
    ensures Ids([]) == []
  {
  }

  lemma LinkAllNone(vectors: map<Id, Entry>, id: Id, max: nat)
    ensures LinkAll(vectors, [], id, max) == vectors
  {
  }

  lemma LinkAllSnoc(vectors: map<Id, Entry>, taken: seq<Id>, n: Id, id: Id, max: nat)
    requires n in vectors && n !in taken
    ensures LinkAll(vectors, taken + [n], id, max) == LinkAll(vectors, taken, id, max)[n := Link(vectors[n], id, max)]
    ensures LinkAll(vectors, taken, id, max)[n] == vectors[n]
  {
  }

  lemma UnlinkAllNone(vectors: map<Id, Entry>, id: Id)
    ensures UnlinkAll(vectors, [], id) == vectors
  {
  }

  lemma UnlinkAllSnoc(vectors: map<Id, Entry>, links: seq<Id>, n: Id, id: Id)
    ensures n !in vectors ==> UnlinkAll(vectors, links + [n], id) == UnlinkAll(vectors, links, id)
    ensures n in vectors ==>
      UnlinkAll(vectors, links +
        [n], id) == UnlinkAll(vectors, links, id)[n := Unlink(UnlinkAll(vectors, links, id)[n], id)]
  {
    if n in vectors {
      UnlinkTwice(vectors[n], id);
    }
  }

  lemma SoundEntry(vectors: map<Id, Entry>, entry: Option<Id>, max: nat)
    requires Sound(vectors, entry, max)
    ensures entry.Some? <==> vectors.Keys != {}
    ensures entry.Some? ==> entry.value in vectors
  {
  }

  lemma JoinedIs(vectors: map<Id, Entry>, taken: seq<Id>, id: Id, v: Vector, layer: nat, max: nat)
    ensures Joined(vectors, taken, id, v, layer, max) == LinkAll(vectors, taken, id, max)[id := Fresh(v, taken, layer)]
  {
  }

  lemma JoinedGrows(vectors: map<Id, Entry>, taken: seq<Id>, id: Id, v: Vector, layer: nat, max: nat)
    ensures Joined(vectors, taken, id, v, layer, max).Keys == vectors.Keys + {id}
    ensures id !in vectors ==> |Joined(vectors, taken, id, v, layer, max)| == |vectors| + 1
  {
    var after := Joined(vectors, taken, id, v, layer, max);
    assert |after| == |after.Keys| && |vectors| == |vectors.Keys|;
  }

  lemma FirstEntry(sp: Space, id: Id, layer: nat, max: nat, k: nat)
    requires sp.vectors.Keys == {}
    ensures Joined(sp.vectors, Ids([]), id, sp.query, layer, max) == map[id := Fresh(sp.query, [], layer)]
    ensures Sound(map[id := Fresh(sp.query, [], layer)], Some(id), max)
    ensures Complete(map[id := Fresh(sp.query, [], layer)])
    ensures IsNearestList(sp, {}, [], k)
  {
    assert Ids([]) == [];
    assert id in map[id := Fresh(sp.query, [], layer)].Keys;
  }

  lemma InsertSound(vectors: map<Id, Entry>, entry: Option<Id>, taken: seq<Id>, id: Id, v: Vector, layer: nat,
                    max: nat, entry': Option<Id>)
    requires Sound(vectors, entry, max) && |taken| <= max && entry.Some?
    requires entry' == entry || entry' == Some(id)
    ensures Sound(Joined(vectors, taken, id, v, layer, max), entry', max)
  {
    var after := Joined(vectors, taken, id, v, layer, max);
    assert id in after.Keys;
  }

  /** The new entry holds its vector and links to `taken` on its lowest layer; the others gain at most one link back. */
  ghost predicate Entered(vectors: map<Id, Entry>, after: map<Id, Entry>, taken: seq<Id>,
                          id: Id, v: Vector, layer: nat, max: nat) {
    && after.Keys == vectors.Keys + {id}
    && after[id].vector == v && |after[id].neighbors| == layer + 1 && Flatten(after[id].neighbors) == taken
    && forall x :: x in vectors && x != id ==>
         && after[x].vector == vectors[x].vector
         && Flatten(after[x].neighbors) ==
            Flatten(vectors[x].neighbors) + if x in taken && |Flatten(vectors[x].neighbors)| < max then [id] else []
  }

  lemma LinkFlat(e: Entry, id: Id, max: nat)
    requires Bounded(e, max)
    ensures Flatten(Link(e, id, max).neighbors) ==
            Flatten(e.neighbors) + if |Flatten(e.neighbors)| < max then [id] else []
  {
    BoundedDegree(e, max);
    if |e.neighbors[0]| < max {
      BoundedDegree(Link(e, id, max), max);
    }
  }

  lemma JoinedEnters(vectors: map<Id, Entry>, taken: seq<Id>, id: Id, v: Vector, layer: nat, max: nat)
    requires |taken| <= max && forall x :: x in vectors ==> Bounded(vectors[x], max)
    ensures Entered(vectors, Joined(vectors, taken, id, v, layer, max), taken, id, v, layer, max)
  {
    hide Link, Bounded, Flatten;
    FreshFlat(v, taken, layer, max);
    forall x | x in vectors ensures Flatten(Link(vectors[x], id, max).neighbors) ==
      Flatten(vectors[x].neighbors) + if |Flatten(vectors[x].neighbors)| < max then [id] else []
      ensures Link(vectors[x], id, max).vector == vectors[x].vector
    {
      LinkFlat(vectors[x], id, max);
      LinkVector(vectors[x], id, max);
    }
    var after := Joined(vectors, taken, id, v, layer, max);
    forall x | x in vectors && x != id && x !in taken ensures after[x] == vectors[x] {}
    forall s: seq<Id> ensures s + [] == s {}
  }

  lemma LinkVector(e: Entry, id: Id, max: nat)
    ensures Link(e, id, max).vector == e.vector
  {
  }

  lemma FreshFlat(v: Vector, taken: seq<Id>, layer: nat, max: nat)
    requires |taken| <= max
    ensures Flatten(Fresh(v, taken, layer).neighbors) == taken && Fresh(v, taken, layer).vector == v
    ensures |Fresh(v, taken, layer).neighbors| == layer + 1
  {
    BoundedDegree(Fresh(v, taken, layer), max);
  }

  /**
   * Every other entry keeps its vector; those `id` linked to lose their links to it and no other,
   * the rest keep all.
   */
  ghost predicate Left(vectors: map<Id, Entry>, after: map<Id, Entry>, id: Id)
    requires id in vectors
  {
    && after.Keys == vectors.Keys - {id}
    && forall x :: x in after ==>
         && after[x].vector == vectors[x].vector
         && (x !in Flatten(vectors[id].neighbors) ==> after[x] == vectors[x])
         && (x in Flatten(vectors[id].neighbors) ==>
               forall y :: y in Flatten(after[x].neighbors) <==> y in Flatten(vectors[x].neighbors) && y != id)
  }

  lemma UnlinkLeaves(vectors: map<Id, Entry>, id: Id, max: nat)
    requires id in vectors && forall x :: x in vectors ==> Bounded(vectors[x], max)
    ensures Left(vectors, UnlinkAll(vectors - {id}, Flatten(vectors[id].neighbors), id), id)
  {
    hide Bounded, Flatten, Unlink;
    forall x | x in vectors
      ensures Unlink(vectors[x], id).vector == vectors[x].vector
      ensures forall y :: y in Flatten(Unlink(vectors[x], id).neighbors) <==>
        y in Flatten(vectors[x].neighbors) && y != id
    {
      UnlinkFlat(vectors[x], id, max);
    }
  }

  lemma UnlinkFlat(e: Entry, id: Id, max: nat)
    requires Bounded(e, max)
    ensures Unlink(e, id).vector == e.vector
    ensures forall y :: y in Flatten(Unlink(e, id).neighbors) <==> y in Flatten(e.neighbors) && y != id
  {
    UnlinkBounded(e, id, max);
    BoundedDegree(e, max);
    BoundedDegree(Unlink(e, id), max);
    assert Unlink(e, id).neighbors[0] == Without(e.neighbors[0], id);
  }

  lemma SoundIsBounded(vectors: map<Id, Entry>, entry: Option<Id>, max: nat)
    requires Sound(vectors, entry, max)
    ensures forall x :: x in vectors ==> Bounded(vectors[x], max)
  {
  }

  lemma RemoveSound(vectors: map<Id, Entry>, entry: Option<Id>, id: Id, links: seq<Id>, max: nat, entry': Option<Id>)
    requires Sound(vectors, entry, max) && id in vectors
    requires entry' == (if entry == Some(id) then entry' else entry)
    requires entry == Some(id) ==> (entry'.Some? <==> vectors.Keys - {id} != {})
    requires entry == Some(id) ==> (entry'.Some? ==> entry'.value in vectors.Keys - {id})
    ensures Sound(UnlinkAll(vectors - {id}, links, id), entry', max)
  {
    var after := UnlinkAll(vectors - {id}, links, id);
    assert after.Keys == vectors.Keys - {id};
    assert entry != Some(id) ==> entry.value in after.Keys;
    forall x | x in after ensures Bounded(after[x], max) {
      UnlinkBounded(vectors[x], id, max);
    }
  }

  lemma UnlinkBounded(e: Entry, id: Id, max: nat)
    requires Bounded(e, max)
    ensures Bounded(Unlink(e, id), max)
  {
    var layers := Unlink(e, id).neighbors;
    forall i | 1 <= i < |layers| ensures layers[i] == [] {
      assert layers[i] == Without(e.neighbors[i], id);
    }
  }

  lemma LinkGrows(e: Entry, id: Id, max: nat, n: nat)
    requires FewerThan(e, n) && n <= max
    ensures FewerThan(Link(e, id, max), n + 1) && LinksTo(Link(e, id, max), id)
    ensures forall y :: LinksTo(e, y) ==> LinksTo(Link(e, id, max), y)
  {
  }

  lemma FreshLinks(v: Vector, taken: seq<Id>, layer: nat)
    ensures FewerThan(Fresh(v, taken, layer), |taken| + 1)
    ensures forall y :: y in taken ==> LinksTo(Fresh(v, taken, layer), y)
  {
  }

  /** Linking a new id with every entry of a complete table, none of which is full, gives a complete table. */
  lemma CompleteGrows(vectors: map<Id, Entry>, taken: seq<Id>, id: Id, v: Vector, layer: nat, max: nat)
    requires Complete(vectors) && id !in vectors && |vectors| <= max
    requires |taken| == |vectors| && forall x :: x in vectors ==> x in taken
    ensures Complete(Joined(vectors, taken, id, v, layer, max))
  {
    hide Link, LinksTo, FewerThan, Fresh;
    var after := Joined(vectors, taken, id, v, layer, max);
    assert after.Keys == vectors.Keys + {id};
    assert |after| == |after.Keys| && |vectors| == |vectors.Keys|;
    FreshLinks(v, taken, layer);
    forall x | x in vectors
      ensures FewerThan(after[x], |after|) && LinksTo(after[x], id)
      ensures forall y :: LinksTo(vectors[x], y) ==> LinksTo(after[x], y)
    {
      LinkGrows(vectors[x], id, max, |vectors|);
    }
  }

  /** A wide enough search keeps all it evaluates. */
  lemma WideIsAll(sp: Space, seen: set<Id>, best: set<Id>, ef: nat)
    requires seen <= sp.vectors.Keys && |sp.vectors| <= ef && Nearest(sp, best, seen, ef)
    ensures best == seen
  {
    var all := sp.vectors.Keys;
    assert |sp.vectors| == |all|;
    assert |all| == |seen| + |all - seen| by { assert all == seen + (all - seen); }
    assert |seen| == |best| + |seen - best| by { assert seen == best + (seen - best); }
  }

  /** A wide enough search of a complete table evaluates all of it. */
  lemma CompleteIsSeen(sp: Space, entry: Id, seen: set<Id>, best: set<Id>, ef: nat)
    requires Complete(sp.vectors) && entry in seen && seen <= sp.vectors.Keys && |sp.vectors| <= ef
    requires Nearest(sp, best, seen, ef) && Explored(sp, best, seen, {})
    ensures seen == sp.vectors.Keys
  {
    hide Nearest;
    WideIsAll(sp, seen, best, ef);
    forall y | y in sp.vectors ensures y in seen {
      assert y != entry ==> LinksTo(sp.vectors[entry], y) && y in sp.Links(entry);
    }
  }

  lemma {:induction false} DistinctSize(s: seq<Id>)
    requires Distinct(s)
    ensures |Members(s)| == |s|
  {
    if s != [] {
      DistinctSize(s[1..]);
      assert Members(s) == {s[0]} + Members(s[1..]);
    }
  }

  lemma NearestIds(sp: Space, seen: set<Id>, hits: seq<Hit>, k: nat)
    requires IsNearestList(sp, seen, hits, k)
    ensures Distinct(Ids(hits)) && |Ids(hits)| == MinNat(k, |seen|) && forall x :: x in Ids(hits) ==> x in seen
    ensures |seen| <= k ==> forall x :: x in seen ==> x in Ids(hits)
  {
    ListedIds(sp, seen, hits, k);
    hide IsNearestList, Ids;
    DistinctSize(Ids(hits));
    var listed := Members(Ids(hits));
    assert |seen| == |listed| + |seen - listed| by { assert seen == listed + (seen - listed); }
  }

  lemma ListedIds(sp: Space, seen: set<Id>, hits: seq<Hit>, k: nat)
    requires IsNearestList(sp, seen, hits, k)
    ensures Distinct(Ids(hits)) && |Ids(hits)| == MinNat(k, |seen|) && forall x :: x in Ids(hits) ==> x in seen
  {
    forall x | x in Ids(hits) ensures x in seen {
      var i :| 0 <= i < |hits| && Ids(hits)[i] == x;
      assert hits[i].id in seen;
    }
  }

  /** The first `k` hits of a layer search: the nearest of what it evaluated, of everything if the table is complete. */
  method TakeNearest(sp: Space, entry: Id, ef: nat, k: nat) returns (hits: seq<Hit>, ghost seen: set<Id>)
    requires ef >= 1 && entry in sp.vectors
    ensures entry in seen && seen <= sp.vectors.Keys && IsNearestList(sp, seen, hits, MinNat(k, ef))
    ensures Complete(sp.vectors) && |sp.vectors| <= ef ==> seen == sp.vectors.Keys
    ensures LocallyNearest(sp, entry, MinNat(k, ef), hits)
  {
    hide Nearest, IsNearestList, Complete, Explored, LocallyNearest;
    ghost var best;
    hits, seen, best := SearchLayer(sp, entry, ef);
    if Complete(sp.vectors) && |sp.vectors| <= ef {
      CompleteIsSeen(sp, entry, seen, best, ef);
    }
    NearestPrefix(sp, best, seen, ef, hits, MinNat(k, ef));
    HitsWithin(sp, best, seen, ef, hits);
    LocalPrefix(sp, entry, ef, hits, k);
    hits := hits[..MinNat(k, |hits|)];
  }

  function Firsts(items: seq<(Id, Vector)>): (r: seq<Id>)
    ensures |r| == |items|
  {
    seq(|items|, i requires 0 <= i < |items| => items[i].0)
  }

  ghost function Members(ids: seq<Id>): set<Id> {
    set x | x in ids
  }

  /** The first `i` ids are stored, completely linked if they are few and distinct. */
  ghost predicate Built(ids: seq<Id>, i: nat, vectors: map<Id, Entry>, distinct: bool) {
    i <= |ids| && vectors.Keys == Members(ids[..i]) && (distinct ==> Complete(vectors) && |vectors| == i)
  }

  lemma BuildStarts(items: seq<(Id, Vector)>)
    ensures forall distinct :: Built(Firsts(items), 0, map[], distinct)
  {
  }

  lemma BuiltFresh(items: seq<(Id, Vector)>, i: nat, vectors: map<Id, Entry>, distinct: bool)
    requires i < |items| && Built(Firsts(items), i, vectors, distinct) && (distinct ==> Distinct(Firsts(items)))
    ensures distinct ==> items[i].0 !in vectors && Complete(vectors) && |vectors| == i
  {
    PrefixGrows(items, i);
  }

  lemma BuiltGrows(items: seq<(Id, Vector)>, i: nat, was: map<Id, Entry>, vectors: map<Id, Entry>, distinct: bool)
    requires i < |items| && Built(Firsts(items), i, was, distinct) && vectors.Keys == was.Keys + {items[i].0}
    requires distinct ==> Complete(vectors) && |vectors| == |was| + 1
    ensures Built(Firsts(items), i + 1, vectors, distinct)
  {
    hide Complete;
    PrefixGrows(items, i);
  }

  lemma BuiltAll(ids: seq<Id>, vectors: map<Id, Entry>, distinct: bool)
    requires Built(ids, |ids|, vectors, distinct)
    ensures vectors.Keys == Members(ids) && (distinct ==> Complete(vectors) && |vectors| == |ids|)
  {
    assert ids[..|ids|] == ids;
  }

  lemma PrefixGrows(items: seq<(Id, Vector)>, i: nat)
    requires i < |items|
    ensures Members(Firsts(items)[..i + 1]) == Members(Firsts(items)[..i]) + {items[i].0}
    ensures Distinct(Firsts(items)) ==> items[i].0 !in Members(Firsts(items)[..i])
  {
    var ids := Firsts(items);
    assert ids[..i + 1] == ids[..i] + [ids[i]] && ids[i] == items[i].0;
    assert Distinct(ids) ==> forall j :: 0 <= j < i ==> ids[j] != ids[i];
  }

  // ---------- the index ----------

  class VectorIndex {
    const dimension: nat
    const maxConnections: nat
    const efConstruction: nat := 100
    const distance: Distance
    const normalize: Vector -> Vector
    const layerOf: Id -> nat
    var vectors: map<Id, Entry>
    var entry: Option<Id>

    ghost predicate Valid()
      reads this
    {
      Sound(vectors, entry, maxConnections)
    }

    /** The search space a query sees. */
    function SpaceOf(query: Vector): Space
      reads this
    {
      Space(vectors, distance, normalize(query))
    }

    constructor (dimension: nat, maxConnections: nat, distance: Distance, normalize: Vector -> Vector,
      layerOf: Id -> nat)
      ensures Valid() && vectors == map[] && Complete(vectors)
      ensures this.dimension == dimension && this.maxConnections == maxConnections && this.distance == distance
      ensures this.normalize == normalize && this.layerOf == layerOf
    {
      this.dimension, this.maxConnections, this.distance := dimension, maxConnections, distance;
      this.normalize, this.layerOf := normalize, layerOf;
      vectors, entry := map[], None;
    }

    /** Links the entries `taken` back to `id`, as far as they have room. */
    method LinkBack(taken: seq<Id>, id: Id)
      requires Distinct(taken) && forall i :: 0 <= i < |taken| ==> taken[i] in vectors
      modifies this`vectors
      ensures vectors == LinkAll(old(vectors), taken, id, maxConnections)
    {
      hide Link, LinkAll;
      ghost var was := vectors;
      LinkAllNone(was, id, maxConnections);
      for i := 0 to |taken|
        invariant vectors == LinkAll(was, taken[..i], id, maxConnections)
      {
        LinkAllSnoc(was, taken[..i], taken[i], id, maxConnections);
        assert taken[..i + 1] == taken[..i] + [taken[i]];
        vectors := vectors[taken[i] := Link(vectors[taken[i]], id, maxConnections)];
      }
      assert taken[..|taken|] == taken;
    }

    /**
     * A vector of the wrong dimension is refused and changes nothing. Otherwise the new entry is
     * linked both ways with the nearest entries the layer search evaluated, and nothing else
     * changes but the entry point of an empty index or for an entry above the lowest layer.
     */
    method Insert(id: Id, vector: Vector) returns (r: Result<()>, ghost taken: seq<Hit>, ghost seen: set<Id>)
      requires Valid()
      modifies this
      ensures Valid()
      ensures r.Ok? <==> |vector| == dimension
      ensures r.Err? ==> vectors == old(vectors) && entry == old(entry)
      ensures r.Ok? ==> vectors == Joined(old(vectors), Ids(taken), id, normalize(vector), layerOf(id), maxConnections)
      ensures r.Ok? ==>
        Entered(old(vectors), vectors, Ids(taken), id, normalize(vector), layerOf(id), maxConnections)
      ensures r.Ok? ==> entry == if old(entry) == None || layerOf(id) > 0 then Some(id) else old(entry)
      ensures r.Ok? ==> seen <= old(vectors).Keys && (old(entry).Some? ==> old(entry.value) in seen)
      ensures r.Ok? ==> IsNearestList(old(SpaceOf(vector)), seen, taken, MinNat(maxConnections, efConstruction))
      ensures r.Ok? && old(Complete(vectors)) && id !in old(vectors) ==>
        |old(vectors)| <= maxConnections < efConstruction ==> Complete(vectors)
    {
      hide IsNearestList, LocallyNearest, Complete, Joined, Sound, Ids, Bounded, Entered;
      taken, seen := [], {};
      if |vector| != dimension {
        return Err, taken, seen;
      }
      var layer, sp := layerOf(id), SpaceOf(vector);
      SoundEntry(vectors, entry, maxConnections);
      SoundIsBounded(vectors, entry, maxConnections);
      if vectors.Keys == {} {
        NoIds();
        JoinedEnters(vectors, [], id, sp.query, layer, maxConnections);
        FirstEntry(sp, id, layer, maxConnections, MinNat(maxConnections, efConstruction));
        entry, vectors := Some(id), map[id := Fresh(sp.query, [], layer)];
        return Ok(()), taken, seen;
      }
      var hits, evaluated := TakeNearest(sp, entry.value, efConstruction, maxConnections);
      taken, seen := hits, evaluated;
      NearestIds(sp, seen, hits, MinNat(maxConnections, efConstruction));
      ghost var was, entry' := vectors, if layer > 0 then Some(id) else entry;
      JoinedEnters(was, Ids(hits), id, sp.query, layer, maxConnections);
      InsertSound(was, entry, Ids(hits), id, sp.query, layer, maxConnections, entry');
      if Complete(was) && id !in was && |was| <= maxConnections < efConstruction {
        assert |was| == |was.Keys|;
        CompleteGrows(was, Ids(hits), id, sp.query, layer, maxConnections);
      }
      LinkBack(Ids(hits), id);
      vectors := vectors[id := Fresh(sp.query, Ids(hits), layer)];
      JoinedIs(was, Ids(hits), id, sp.query, layer, maxConnections);
      if layer > 0 {
        entry := Some(id);
      }
      r := Ok(());
    }

    /**
     * The `k` nearest of what the search evaluated; on a complete index of at most
     * `efConstruction` or `k` entries, exactly what a brute-force scan of all entries gives.
     */
    method Search(query: Vector, k: nat) returns (r: Result<seq<Hit>>, ghost seen: set<Id>)
      requires Valid()
      ensures r.Ok? <==> |query| == dimension
      ensures r.Ok? ==> seen <= vectors.Keys && (entry.Some? ==> entry.value in seen)
      ensures r.Ok? ==> IsNearestList(SpaceOf(query), seen, r.value, k)
      ensures r.Ok? ==> forall i :: 0 <= i < |r.value| ==>
        (r.value[i].id in vectors && r.value[i].distance == distance(normalize(query), vectors[r.value[i].id].vector))
      ensures r.Ok? && Complete(vectors) && (|vectors| <= efConstruction || |vectors| <= k) ==>
        forall i, x :: 0 <= i < |r.value| && x in vectors && !Listed(r.value, x) ==>
          r.value[i].distance <= distance(normalize(query), vectors[x].vector)
      ensures r.Ok? ==> if entry.None? then r.value == [] else LocallyNearest(SpaceOf(query), entry.value, k, r.value)
      ensures r.Ok? && Complete(vectors) && (|vectors| <= efConstruction || |vectors| <= k) ==>
        IsNearestList(SpaceOf(query), vectors.Keys, r.value, k)
    {
      hide Complete, Sound, LocallyNearest;
      seen := {};
      if |query| != dimension {
        return Err, seen;
      }
      SoundEntry(vectors, entry, maxConnections);
      if vectors.Keys == {} {
        return Ok([]), seen;
      }
      var ef := if k >= efConstruction then k else efConstruction;
      var hits, evaluated := TakeNearest(SpaceOf(query), entry.value, ef, k);
      r, seen := Ok(hits), evaluated;
    }

    /** Drops the entry and the links to it from everything it linked to; a new entry point is chosen if need be. */
    method Remove(id: Id) returns (removed: bool)
      requires Valid()
      modifies this
      ensures Valid()
      ensures removed <==> id in old(vectors)
      ensures !removed ==> vectors == old(vectors) && entry == old(entry)
      ensures removed ==> vectors == UnlinkAll(old(vectors) - {id}, Flatten(old(vectors)[id].neighbors), id)
      ensures removed ==> Left(old(vectors), vectors, id)
      ensures removed && old(entry) != Some(id) ==> entry == old(entry)
    {
      hide UnlinkAll, Sound, Left, Bounded;
      if id !in vectors {
        return false;
      }
      var links := Flatten(vectors[id].neighbors);
      ghost var was := vectors;
      SoundEntry(vectors, entry, maxConnections);
      SoundIsBounded(vectors, entry, maxConnections);
      UnlinkLeaves(was, id, maxConnections);
      vectors := vectors - {id};
      UnlinkAllNone(was - {id}, id);
      for i := 0 to |links|
        invariant vectors == UnlinkAll(was - {id}, links[..i], id)
        invariant entry == old(entry)
      {
        UnlinkAllSnoc(was - {id}, links[..i], links[i], id);
        assert links[..i + 1] == links[..i] + [links[i]];
        if links[i] in vectors {
          vectors := vectors[links[i] := Unlink(vectors[links[i]], id)];
        }
      }
      assert links[..|links|] == links;
      assert vectors.Keys == was.Keys - {id};
      if entry == Some(id) {
        if vectors.Keys == {} {
          entry := None;
        } else {
          var next :| next in vectors;
          entry := Some(next);
        }
      }
      RemoveSound(was, old(entry), id, links, maxConnections, entry);
      removed := true;
    }

    /**
     * Building an empty index from at most `maxConnections + 1` vectors with distinct ids gives a
     * complete link graph over exactly those ids.
     */
    method BuildFromVectors(items: seq<(Id, Vector)>) returns (r: Result<()>)
      requires Valid() && vectors == map[]
      modifies this
      ensures Valid()
      ensures r.Ok? <==> forall i :: 0 <= i < |items| ==> |items[i].1| == dimension
      ensures r.Ok? ==> vectors.Keys == Members(Firsts(items))
      ensures r.Ok? && Distinct(Firsts(items)) && |items| <= maxConnections + 1 && maxConnections < efConstruction ==>
        Complete(vectors) && |vectors| == |items|
    {
      hide Complete, Sound, Joined, IsNearestList, Distinct, Members, Firsts, Built;
      BuildStarts(items);
      ghost var ids := Firsts(items);
      ghost var distinct := Distinct(ids) && |items| <= maxConnections + 1 && maxConnections < efConstruction;
      for i := 0 to |items|
        invariant Valid()
        invariant forall j :: 0 <= j < i ==> |items[j].1| == dimension
        invariant Built(ids, i, vectors, distinct)
      {
        ghost var was := vectors;
        BuiltFresh(items, i, was, distinct);
        var one, taken, _ := Insert(items[i].0, items[i].1);
        if one.Err? {
          return Err;
        }
        JoinedGrows(was, Ids(taken), items[i].0, normalize(items[i].1), layerOf(items[i].0), maxConnections);
        BuiltGrows(items, i, was, vectors, distinct);
      }
      BuiltAll(ids, vectors, distinct);
      r := Ok(());
    }
  }

}
