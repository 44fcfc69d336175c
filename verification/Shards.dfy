/**
 * The sharded store of src/distributed/shard.rs: one node table and one Bloom filter to a shard,
 * and the hash ring that says which shard an id belongs to.
 */
module Shards {
  import opened Wrappers
  import opened Values
  import Bloom
  import HashRing
  import opened Bits

  type Id = Bloom.Item

  datatype Node = Node(nodeType: string, properties: Properties)

  datatype Shard = Shard(nodes: map<Id, Node>, bloom: Bloom.Filter)

  /** What stays fixed: the shard of every id, and the hash behind the filters. */
  datatype Layout = Layout(ownerOf: Id -> nat, hash: Bloom.Hash)

  type Flat = map<Id, Node>

  /** The properties of an update are laid over the old ones; anything but an object changes nothing. */
  function Updated(n: Node, v: Value): Node {
    if v.Object? then n.(properties := n.properties + v.fields) else n
  }

  datatype Op =
    | InsertNode(id: Id, node: Node)
    | UpdateNode(id: Id, value: Value)
    | DeleteNode(id: Id)
    | InsertEdge(src: Id, edgeId: Bloom.Item)

  // ---------- what the operations do ----------

  function Place(l: Layout, s: Shard, id: Id, node: Node): Shard
    requires s.bloom.Valid()
  {
    Shard(s.nodes[id := node], Bloom.Insert(l.hash, s.bloom, id))
  }

  function Step(l: Layout, shards: seq<Shard>, op: Op): seq<Shard>
    requires AllValid(shards) && (forall id :: l.ownerOf(id) < |shards|)
  {
    match op
    case InsertNode(id, node) => shards[l.ownerOf(id) := Place(l, shards[l.ownerOf(id)], id, node)]
    case UpdateNode(id, value) =>
      var s := shards[l.ownerOf(id)];
      if id in s.nodes then shards[l.ownerOf(id) := s.(nodes := s.nodes[id := Updated(s.nodes[id], value)])] else shards
    case DeleteNode(id) =>
      var s := shards[l.ownerOf(id)];
      shards[l.ownerOf(id) := s.(nodes := s.nodes - {id})]
    case InsertEdge(src, edgeId) =>
      var s := shards[l.ownerOf(src)];
      shards[l.ownerOf(src) := s.(bloom := Bloom.Insert(l.hash, s.bloom, edgeId))]
  }

  /** The same operation on one plain map. */
  function FlatStep(flat: Flat, op: Op): Flat {
    match op
    case InsertNode(id, node) => flat[id := node]
    case UpdateNode(id, value) =>
      if id in flat && value.Object?
      then flat[id := flat[id].(properties :=
             map k | k in flat[id].properties.Keys + value.fields.Keys ::
               if k in value.fields then value.fields[k] else flat[id].properties[k])]
      else flat
    case DeleteNode(id) => flat - {id}
    case InsertEdge(_, _) => flat
  }

  /** A lookup asks the filter first. */
  function Lookup(l: Layout, shards: seq<Shard>, id: Id): Option<Node>
    requires AllValid(shards) && l.ownerOf(id) < |shards|
  {
    var s := shards[l.ownerOf(id)];
    if !Bloom.MayContain(l.hash, s.bloom, id) then None
    else if id in s.nodes then Some(s.nodes[id]) else None
  }

  function FlatLookup(flat: Flat, id: Id): Option<Node> {
    if id in flat then Some(flat[id]) else None
  }

  predicate AllValid(shards: seq<Shard>) {
    forall i :: 0 <= i < |shards| ==> shards[i].bloom.Valid()
  }

  // ---------- the shards are one map ----------

  /** One shard holds exactly the flat entries it owns, and its filter admits them all. */
  ghost predicate Slice(l: Layout, s: Shard, i: nat, flat: Flat) {
    && s.bloom.Valid()
    && (forall id :: id in s.nodes <==> id in flat && l.ownerOf(id) == i)
    && (forall id :: id in s.nodes ==> s.nodes[id] == flat[id] && Bloom.MayContain(l.hash, s.bloom, id))
  }

  ghost predicate Agrees(l: Layout, shards: seq<Shard>, flat: Flat) {
    && (forall id :: l.ownerOf(id) < |shards|)
    && forall i :: 0 <= i < |shards| ==> Slice(l, shards[i], i, flat)
  }

  lemma AgreesIsValid(l: Layout, shards: seq<Shard>, flat: Flat)
    requires Agrees(l, shards, flat)
    ensures AllValid(shards)
  {
  }

  /** The filter admits a new item and still admits all it admitted before. */
  lemma FilterGrows(hash: Bloom.Hash, f: Bloom.Filter, item: Bloom.Item, other: Bloom.Item)
    requires f.Valid()
    ensures Bloom.MayContain(hash, Bloom.Insert(hash, f, item), item)
    ensures Bloom.MayContain(hash, f, other) ==> Bloom.MayContain(hash, Bloom.Insert(hash, f, item), other)
  {
    hide Bloom.BitAt, Bloom.Index, Bloom.SetFirst;
    var g := Bloom.Insert(hash, f, item);
    forall i: nat | i < f.numHashes ensures Bloom.BitAt(g.words, Bloom.Index(hash, item, i, f.numBits)) {
      var b := Bloom.Index(hash, item, i, f.numBits);
      Bloom.SetFirstSets(hash, f.words, item, f.numHashes, f.numBits, b);
      assert Bloom.Points(hash, item, f.numHashes, f.numBits, b);
    }
    if Bloom.MayContain(hash, f, other) {
      forall i: nat | i < f.numHashes ensures Bloom.BitAt(g.words, Bloom.Index(hash, other, i, f.numBits)) {
        Bloom.SetFirstSets(hash, f.words, item, f.numHashes, f.numBits, Bloom.Index(hash, other, i, f.numBits));
      }
    }
  }

  /** The update of the flat map, key by key, is the one the shards make. */
  lemma UpdateOnFlat(flat: Flat, op: Op)
    ensures op.UpdateNode? ==>
      FlatStep(flat, op) == if op.id in flat then flat[op.id := Updated(flat[op.id], op.value)] else flat
  {
    if op.UpdateNode? && op.id in flat && op.value.Object? {
      assert FlatStep(flat, op)[op.id].properties == flat[op.id].properties + op.value.fields;
    } else if op.UpdateNode? && op.id in flat {
      assert flat[op.id := flat[op.id]] == flat;
    }
  }

  lemma InsertSlice(l: Layout, s: Shard, i: nat, flat: Flat, id: Id, node: Node)
    requires Slice(l, s, i, flat)
    ensures Slice(l, if l.ownerOf(id) == i then Place(l, s, id, node) else s, i, flat[id := node])
  {
    hide Bloom.MayContain, Bloom.Insert;
    forall x
      ensures Bloom.MayContain(l.hash, Bloom.Insert(l.hash, s.bloom, id), id)
      ensures Bloom.MayContain(l.hash, s.bloom, x) ==> Bloom.MayContain(l.hash, Bloom.Insert(l.hash, s.bloom, id), x)
    {
      FilterGrows(l.hash, s.bloom, id, x);
    }
  }

  lemma UpdateSlice(l: Layout, s: Shard, i: nat, flat: Flat, id: Id, node: Node)
    requires Slice(l, s, i, flat) && id in flat
    ensures Slice(l, if l.ownerOf(id) == i then s.(nodes := s.nodes[id := node]) else s, i, flat[id := node])
  {
    hide Bloom.MayContain;
  }

  lemma DeleteSlice(l: Layout, s: Shard, i: nat, flat: Flat, id: Id)
    requires Slice(l, s, i, flat)
    ensures Slice(l, if l.ownerOf(id) == i then s.(nodes := s.nodes - {id}) else s, i, flat - {id})
  {
    hide Bloom.MayContain;
  }

  lemma MarkSlice(l: Layout, s: Shard, i: nat, flat: Flat, item: Bloom.Item)
    requires Slice(l, s, i, flat)
    ensures Slice(l, s.(bloom := Bloom.Insert(l.hash, s.bloom, item)), i, flat)
  {
    hide Bloom.MayContain, Bloom.Insert;
    forall x
      ensures Bloom.MayContain(l.hash, s.bloom, x) ==> Bloom.MayContain(l.hash, Bloom.Insert(l.hash, s.bloom, item), x)
    {
      FilterGrows(l.hash, s.bloom, item, x);
    }
  }

  lemma SliceHolds(l: Layout, s: Shard, i: nat, flat: Flat, id: Id)
    requires Slice(l, s, i, flat) && l.ownerOf(id) == i
    ensures (id in s.nodes <==> id in flat) && (id in flat ==> s.nodes[id] == flat[id])
  {
  }

  lemma StepSlice(l: Layout, shards: seq<Shard>, flat: Flat, op: Op, i: nat)
    requires Agrees(l, shards, flat) && i < |shards| && AllValid(shards)
    ensures Slice(l, Step(l, shards, op)[i], i, FlatStep(flat, op))
  {
    hide Slice, Updated, Place;
    var s := shards[i];
    assert Slice(l, s, i, flat);
    UpdateOnFlat(flat, op);
    match op
    case InsertNode(id, node) => InsertSlice(l, s, i, flat, id, node);
    case UpdateNode(id, value) =>
      hide FlatStep;
      SliceHolds(l, shards[l.ownerOf(id)], l.ownerOf(id), flat, id);
      if id in flat {
        UpdateSlice(l, s, i, flat, id, Updated(flat[id], value));
      }
    case DeleteNode(id) => DeleteSlice(l, s, i, flat, id);
    case InsertEdge(src, e) =>
      if l.ownerOf(src) == i {
        MarkSlice(l, s, i, flat, e);
      }
  }

  lemma StepAgrees(l: Layout, shards: seq<Shard>, flat: Flat, op: Op)
    requires Agrees(l, shards, flat) && AllValid(shards)
    ensures Agrees(l, Step(l, shards, op), FlatStep(flat, op))
  {
    hide Slice;
    forall i | 0 <= i < |shards| ensures Slice(l, Step(l, shards, op)[i], i, FlatStep(flat, op)) {
      StepSlice(l, shards, flat, op, i);
    }
  }

  /** The filter's short cut never hides a stored node. */
  lemma LookupAgrees(l: Layout, shards: seq<Shard>, flat: Flat, id: Id)
    requires Agrees(l, shards, flat) && AllValid(shards)
    ensures Lookup(l, shards, id) == FlatLookup(flat, id)
  {
    assert Slice(l, shards[l.ownerOf(id)], l.ownerOf(id), flat);
  }

  /** A stored id is in its own shard and in no other. */
  lemma StoredOnce(l: Layout, shards: seq<Shard>, flat: Flat, id: Id, i: nat)
    requires Agrees(l, shards, flat) && i < |shards|
    ensures id in shards[i].nodes <==> id in flat && i == l.ownerOf(id)
  {
    assert Slice(l, shards[i], i, flat);
  }

  function Total(shards: seq<Shard>): nat {
    if shards == [] then 0 else Total(shards[..|shards| - 1]) + |shards[|shards| - 1].nodes|
  }

  ghost function OwnedBelow(l: Layout, flat: Flat, n: nat): set<Id> {
    set id | id in flat && l.ownerOf(id) < n
  }

  lemma {:induction false} TotalOfFirst(l: Layout, shards: seq<Shard>, flat: Flat, n: nat)
    requires Agrees(l, shards, flat) && n <= |shards|
    ensures Total(shards[..n]) == |OwnedBelow(l, flat, n)|
  {
    if n == 0 {
      assert OwnedBelow(l, flat, 0) == {};
    } else {
      hide Slice, OwnedBelow;
      TotalOfFirst(l, shards, flat, n - 1);
      var last := shards[n - 1];
      assert Slice(l, last, n - 1, flat);
      assert shards[..n][..n - 1] == shards[..n - 1];
      OwnedOneMore(l, last, flat, n);
    }
  }

  lemma OwnedOneMore(l: Layout, last: Shard, flat: Flat, n: nat)
    requires n > 0 && Slice(l, last, n - 1, flat)
    ensures |OwnedBelow(l, flat, n)| == |OwnedBelow(l, flat, n - 1)| + |last.nodes|
  {
    var before, more := OwnedBelow(l, flat, n - 1), last.nodes.Keys;
    assert OwnedBelow(l, flat, n) == before + more;
    assert before !! more;
    assert |last.nodes| == |more|;
  }

  /** The node total over all shards is the size of the flat map. */
  lemma TotalIsSize(l: Layout, shards: seq<Shard>, flat: Flat)
    requires Agrees(l, shards, flat)
    ensures Total(shards) == |flat|
  {
    TotalOfFirst(l, shards, flat, |shards|);
    assert shards[..|shards|] == shards;
    assert OwnedBelow(l, flat, |shards|) == flat.Keys;
    assert |flat| == |flat.Keys|;
  }

  // ---------- whole runs ----------

  function NewShards(n: nat, numBits: nat, numHashes: nat): seq<Shard> {
    seq(n, i => Shard(map[], Bloom.Empty(numBits, numHashes)))
  }

  ghost function FlatRun(ops: seq<Op>): Flat {
    if ops == [] then map[] else FlatStep(FlatRun(ops[..|ops| - 1]), ops[|ops| - 1])
  }

  /** The shards after a run that starts from new ones. */
  ghost function Run(l: Layout, start: seq<Shard>, ops: seq<Op>): (shards: seq<Shard>)
    requires Agrees(l, start, map[])
    ensures Agrees(l, shards, FlatRun(ops)) && AllValid(shards)
  {
    AgreesIsValid(l, start, map[]);
    if ops == [] then start
    else
      var before := Run(l, start, ops[..|ops| - 1]);
      StepAgrees(l, before, FlatRun(ops[..|ops| - 1]), ops[|ops| - 1]);
      AgreesIsValid(l, Step(l, before, ops[|ops| - 1]), FlatRun(ops));
      Step(l, before, ops[|ops| - 1])
  }

  lemma NewAgrees(l: Layout, n: nat, numBits: nat, numHashes: nat)
    requires (forall id :: l.ownerOf(id) < n) && numBits > 0 && numHashes < HALF
    ensures Agrees(l, NewShards(n, numBits, numHashes), map[])
  {
    assert Bloom.Empty(numBits, numHashes).Valid();
  }

  /**
   * After every run on new shards: lookups answer as one flat map would, every id is stored in
   * exactly one shard, and the reported total is the number of nodes.
   */
  lemma ShardsAreOneMap(l: Layout, n: nat, numBits: nat, numHashes: nat, ops: seq<Op>, id: Id)
    requires (forall x :: l.ownerOf(x) < n) && numBits > 0 && numHashes < HALF
    ensures Agrees(l, NewShards(n, numBits, numHashes), map[])
    ensures var shards, flat := Run(l, NewShards(n, numBits, numHashes), ops), FlatRun(ops);
      && Lookup(l, shards, id) == FlatLookup(flat, id)
      && (forall i :: 0 <= i < |shards| ==> (id in shards[i].nodes <==> id in flat && i == l.ownerOf(id)))
      && Total(shards) == |flat|
  {
    hide Slice, Lookup, Total, Run, FlatRun;
    NewAgrees(l, n, numBits, numHashes);
    var shards, flat := Run(l, NewShards(n, numBits, numHashes), ops), FlatRun(ops);
    LookupAgrees(l, shards, flat, id);
    forall i | 0 <= i < |shards| ensures id in shards[i].nodes <==> id in flat && i == l.ownerOf(id) {
      StoredOnce(l, shards, flat, id, i);
    }
    TotalIsSize(l, shards, flat);
  }

  // ---------- the manager object ----------

  /** All owners on the ring are below `n`, so every lookup is too. */
  ghost predicate OwnersBelow(ring: HashRing.Ring, n: nat) {
    forall p :: p in ring ==> ring[p] < n
  }

  lemma OwnerBelow(ring: HashRing.Ring, h: nat, n: nat)
    requires OwnersBelow(ring, n) && n > 0
    ensures HashRing.Owner(ring, h) < n
  {
  }

  lemma AddBelow(hash: HashRing.PointHash, ring: HashRing.Ring, n: nat, v: nat)
    requires OwnersBelow(ring, n)
    ensures OwnersBelow(HashRing.Add(hash, ring, n, v), n + 1)
  {
    forall p | p in HashRing.Add(hash, ring, n, v) ensures HashRing.Add(hash, ring, n, v)[p] < n + 1 {
      HashRing.AddPoints(hash, ring, n, v, p);
    }
  }

  ghost function LayoutOf(ring: HashRing.Ring, keyHash: Id -> nat, hash: Bloom.Hash): Layout {
    Layout(id => HashRing.Owner(ring, keyHash(id)), hash)
  }

  class ShardManager {
    const ring: HashRing.ConsistentHashRing
    const keyHash: Id -> nat
    const hash: Bloom.Hash
    var shards: seq<Shard>

    ghost function Layout(): Layout
      reads ring
    {
      LayoutOf(ring.ring, keyHash, hash)
    }

    ghost predicate Valid()
      reads this, ring
    {
      |shards| > 0 && OwnersBelow(ring.ring, |shards|) && AllValid(shards)
    }

    lemma Owned()
      requires Valid()
      ensures forall id :: Layout().ownerOf(id) < |shards|
    {
      forall id ensures Layout().ownerOf(id) < |shards| {
        OwnerBelow(ring.ring, keyHash(id), |shards|);
      }
    }

    constructor (numShards: nat, virtualNodes: nat, pointHash: HashRing.PointHash, keyHash: Id -> nat,
                 hash: Bloom.Hash, numBits: nat, numHashes: nat)
      requires numShards > 0 && numBits > 0 && numHashes < HALF
      ensures Valid() && fresh(ring) && this.keyHash == keyHash && this.hash == hash
      ensures shards == NewShards(numShards, numBits, numHashes)
      ensures Agrees(Layout(), shards, map[])
    {
      this.keyHash, this.hash, shards := keyHash, hash, [];
      ring := new HashRing.ConsistentHashRing(pointHash, virtualNodes);
      new;
      for i := 0 to numShards
        invariant fresh(ring) && ring.hash == pointHash && OwnersBelow(ring.ring, i)
        invariant shards == NewShards(i, numBits, numHashes)
      {
        AddBelow(pointHash, ring.ring, i, ring.virtualNodes);
        ring.AddNode(i);
        shards := shards + [Shard(map[], Bloom.Empty(numBits, numHashes))];
      }
      assert Bloom.Empty(numBits, numHashes).Valid();
      Owned();
      NewAgrees(Layout(), numShards, numBits, numHashes);
    }

    method ShardOf(id: Id) returns (i: nat)
      requires Valid()
      ensures i == Layout().ownerOf(id) && i < |shards|
    {
      i := ring.GetNode(keyHash(id));
      OwnerBelow(ring.ring, keyHash(id), |shards|);
    }

    method Insert(id: Id, node: Node)
      requires Valid()
      modifies this
      ensures Valid() && (forall x :: Layout().ownerOf(x) < |old(shards)|)
      ensures shards == Step(Layout(), old(shards), InsertNode(id, node))
    {
      Owned();
      var i := ShardOf(id);
      shards := shards[i := shards[i].(bloom := Bloom.Insert(hash, shards[i].bloom, id))];
      shards := shards[i := shards[i].(nodes := shards[i].nodes[id := node])];
    }

    method Get(id: Id) returns (r: Option<Node>)
      requires Valid()
      ensures Layout().ownerOf(id) < |shards| && r == Lookup(Layout(), shards, id)
    {
      var i := ShardOf(id);
      if !Bloom.MayContain(hash, shards[i].bloom, id) {
        return None;
      }
      r := if id in shards[i].nodes then Some(shards[i].nodes[id]) else None;
    }

    method Update(id: Id, value: Value) returns (r: Result<Node>)
      requires Valid()
      modifies this
      ensures Valid() && (forall x :: Layout().ownerOf(x) < |old(shards)|)
      ensures shards == Step(Layout(), old(shards), UpdateNode(id, value))
      ensures r.Ok? <==> id in old(shards)[Layout().ownerOf(id)].nodes
      ensures r.Ok? ==> r.value == Updated(old(shards)[Layout().ownerOf(id)].nodes[id], value)
    {
      Owned();
      var i := ShardOf(id);
      if id !in shards[i].nodes {
        return Err;
      }
      var node := Updated(shards[i].nodes[id], value);
      shards := shards[i := shards[i].(nodes := shards[i].nodes[id := node])];
      r := Ok(node);
    }

    method Delete(id: Id)
      requires Valid()
      modifies this
      ensures Valid() && (forall x :: Layout().ownerOf(x) < |old(shards)|)
      ensures shards == Step(Layout(), old(shards), DeleteNode(id))
    {
      Owned();
      var i := ShardOf(id);
      shards := shards[i := shards[i].(nodes := shards[i].nodes - {id})];
    }

    /** Storing an edge marks its id in the filter of the source node's shard. */
    method MarkEdge(src: Id, edgeId: Bloom.Item)
      requires Valid()
      modifies this
      ensures Valid() && (forall x :: Layout().ownerOf(x) < |old(shards)|)
      ensures shards == Step(Layout(), old(shards), InsertEdge(src, edgeId))
    {
      Owned();
      var i := ShardOf(src);
      shards := shards[i := shards[i].(bloom := Bloom.Insert(hash, shards[i].bloom, edgeId))];
    }

    /** The node counts of the shards and their sum. */
    method Stats() returns (total: nat, counts: seq<nat>)
      ensures total == Total(shards)
      ensures |counts| == |shards| && forall i :: 0 <= i < |shards| ==> counts[i] == |shards[i].nodes|
    {
      total, counts := 0, [];
      for i := 0 to |shards|
        invariant total == Total(shards[..i])
        invariant |counts| == i && forall j :: 0 <= j < i ==> counts[j] == |shards[j].nodes|
      {
        assert shards[..i + 1][..i] == shards[..i];
        total := total + |shards[i].nodes|;
        counts := counts + [|shards[i].nodes|];
      }
      assert shards[..|shards|] == shards;
    }
  }
}
