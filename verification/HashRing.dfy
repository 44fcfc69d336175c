/**
 * The consistent-hash ring of src/distributed/shard.rs: an ordered map from 64-bit points to node
 * numbers. The hash of a virtual point is a function the ring is given.
 */
module HashRing {
  import opened Bits

  /** The hash of virtual point `i` of a node. */
  type PointHash = (nat, nat) -> nat

  type Ring = map<nat, nat>

  // ---------- lookup ----------

  lemma {:induction false} LeastExists(s: set<nat>) returns (x: nat)
    requires s != {}
    ensures x in s && forall y :: y in s ==> x <= y
    decreases |s|
  {
    x :| x in s;
    if s != {x} {
      assert s == {x} + (s - {x});
      var y := LeastExists(s - {x});
      if y < x { x := y; }
    }
  }

  ghost predicate IsLeast(s: set<nat>, x: nat) {
    x in s && forall y :: y in s ==> x <= y
  }

  ghost function Least(s: set<nat>): (x: nat)
    requires s != {}
    ensures IsLeast(s, x)
  {
    assert exists x :: IsLeast(s, x) by {
      var x := LeastExists(s);
      assert IsLeast(s, x);
    }
    var x :| IsLeast(s, x);
    x
  }

  /** The points of the ring at or after `h`. */
  function From(ring: Ring, h: nat): set<nat> {
    set p | p in ring.Keys && p >= h
  }

  /** The node of the first point at or after `h`, of the first point of all if there is none, 0 on an empty ring. */
  ghost function Owner(ring: Ring, h: nat): nat {
    if ring.Keys == {} then 0
    else if From(ring, h) != {} then ring[Least(From(ring, h))]
    else ring[Least(ring.Keys)]
  }

  /** How far clockwise, on the circle of 64-bit numbers, it is from `h` to `p`. */
  function Clockwise(h: nat, p: nat): nat
    requires h < WORD
  {
    if p >= h then p - h else p + WORD - h
  }

  ghost predicate OnCircle(ring: Ring) {
    forall p :: p in ring ==> p < WORD
  }

  /** `p` is the ring's point nearest to `h` going clockwise. */
  ghost predicate IsNext(ring: Ring, h: nat, p: nat)
    requires h < WORD
  {
    p in ring && forall q :: q in ring ==> Clockwise(h, p) <= Clockwise(h, q)
  }

  /** Lookup finds the owner of the nearest point clockwise, wrap-around included. */
  lemma OwnerIsNext(ring: Ring, h: nat) returns (p: nat)
    requires OnCircle(ring) && h < WORD && ring.Keys != {}
    ensures IsNext(ring, h, p) && Owner(ring, h) == ring[p]
  {
    var later := From(ring, h);
    if later != {} {
      p := Least(later);
      forall q | q in ring ensures Clockwise(h, p) <= Clockwise(h, q) {
        assert q >= h ==> q in later;
      }
    } else {
      p := Least(ring.Keys);
      forall q | q in ring ensures q < h {
        assert q !in later;
      }
    }
  }

  lemma NextIsUnique(ring: Ring, h: nat, p: nat, q: nat)
    requires OnCircle(ring) && h < WORD && IsNext(ring, h, p) && IsNext(ring, h, q)
    ensures p == q
  {
  }

  // ---------- adding and removing a node ----------

  function Add(hash: PointHash, ring: Ring, node: nat, v: nat): Ring {
    if v == 0 then ring else Add(hash, ring, node, v - 1)[hash(node, v - 1) := node]
  }

  function Drop(hash: PointHash, ring: Ring, node: nat, v: nat): Ring {
    if v == 0 then ring else Drop(hash, ring, node, v - 1) - {hash(node, v - 1)}
  }

  /** `p` is one of the first `v` virtual points of `node`. */
  predicate IsPoint(hash: PointHash, node: nat, v: nat, p: nat) {
    exists i: nat :: i < v && hash(node, i) == p
  }

  lemma {:induction false} AddPoints(hash: PointHash, ring: Ring, node: nat, v: nat, p: nat)
    ensures p in Add(hash, ring, node, v) <==> p in ring || IsPoint(hash, node, v, p)
    ensures p in Add(hash, ring, node, v) ==>
      Add(hash, ring, node, v)[p] == if IsPoint(hash, node, v, p) then node else ring[p]
  {
    if v > 0 {
      AddPoints(hash, ring, node, v - 1, p);
      IsPointSnoc(hash, node, v, p);
    }
  }

  lemma {:induction false} DropPoints(hash: PointHash, ring: Ring, node: nat, v: nat, p: nat)
    ensures p in Drop(hash, ring, node, v) <==> p in ring && !IsPoint(hash, node, v, p)
    ensures p in Drop(hash, ring, node, v) ==> Drop(hash, ring, node, v)[p] == ring[p]
  {
    if v > 0 {
      DropPoints(hash, ring, node, v - 1, p);
      IsPointSnoc(hash, node, v, p);
    }
  }

  lemma IsPointSnoc(hash: PointHash, node: nat, v: nat, p: nat)
    requires v > 0
    ensures IsPoint(hash, node, v, p) <==> IsPoint(hash, node, v - 1, p) || hash(node, v - 1) == p
  {
  }

  /** The ring that only ever hears of 64-bit hashes stays on the circle. */
  ghost predicate Hashes64(hash: PointHash) {
    forall n: nat, i: nat :: hash(n, i) < WORD
  }

  lemma AddOnCircle(hash: PointHash, ring: Ring, node: nat, v: nat)
    requires OnCircle(ring) && Hashes64(hash)
    ensures OnCircle(Add(hash, ring, node, v))
  {
    forall p | p in Add(hash, ring, node, v) ensures p < WORD {
      AddPoints(hash, ring, node, v, p);
    }
  }

  lemma DropOnCircle(hash: PointHash, ring: Ring, node: nat, v: nat)
    requires OnCircle(ring)
    ensures OnCircle(Drop(hash, ring, node, v))
  {
    forall p | p in Drop(hash, ring, node, v) ensures p < WORD {
      DropPoints(hash, ring, node, v, p);
    }
  }

  /** Adding a node moves keys only onto it. */
  lemma AddMovesOntoNew(hash: PointHash, ring: Ring, node: nat, v: nat, h: nat)
    requires OnCircle(ring) && Hashes64(hash) && h < WORD
    ensures Owner(Add(hash, ring, node, v), h) in {Owner(ring, h), node}
  {
    var after := Add(hash, ring, node, v);
    AddOnCircle(hash, ring, node, v);
    if after.Keys != {} {
      var p := OwnerIsNext(after, h);
      AddPoints(hash, ring, node, v, p);
      if !IsPoint(hash, node, v, p) {
        StillNext(ring, after, h, p) by {
          forall q | q in ring ensures q in after {
            AddPoints(hash, ring, node, v, q);
          }
        }
      }
    } else {
      forall q | q in ring.Keys ensures false {
        AddPoints(hash, ring, node, v, q);
      }
      assert ring.Keys == {};
    }
  }

  /** The nearest point of a larger ring is the nearest of any smaller one that still has it. */
  lemma StillNext(small: Ring, large: Ring, h: nat, p: nat)
    requires OnCircle(small) && OnCircle(large) && h < WORD && IsNext(large, h, p) && p in small
    requires forall q :: q in small ==> q in large
    ensures Owner(small, h) == small[p]
  {
    var r := OwnerIsNext(small, h);
    NextIsUnique(small, h, p, r);
  }

  /** The node's points, where they are on the ring, belong to it. */
  ghost predicate Unshared(hash: PointHash, ring: Ring, node: nat, v: nat) {
    forall p :: p in ring && IsPoint(hash, node, v, p) ==> ring[p] == node
  }

  /** Removing a node whose points no other node holds moves only that node's keys. */
  lemma DropMovesOwnKeys(hash: PointHash, ring: Ring, node: nat, v: nat, h: nat)
    requires OnCircle(ring) && Unshared(hash, ring, node, v) && h < WORD
    requires Owner(ring, h) != node
    ensures Owner(Drop(hash, ring, node, v), h) == Owner(ring, h)
  {
    var after := Drop(hash, ring, node, v);
    DropOnCircle(hash, ring, node, v);
    forall q | q in after ensures q in ring {
      DropPoints(hash, ring, node, v, q);
    }
    if ring.Keys == {} {
      assert after.Keys == {};
    } else {
      var p := OwnerIsNext(ring, h);
      DropPoints(hash, ring, node, v, p);
      StillNext(after, ring, h, p);
    }
  }

  /** Going clockwise from a key to its next point passes nothing, so a smaller ring answers both alike. */
  lemma SameFromNext(small: Ring, large: Ring, h: nat, p: nat)
    requires OnCircle(small) && OnCircle(large) && h < WORD && IsNext(large, h, p)
    requires forall q :: q in small ==> q in large
    ensures Owner(small, h) == Owner(small, p)
  {
    if small.Keys != {} {
      var a := OwnerIsNext(small, h);
      var b := OwnerIsNext(small, p);
      assert Clockwise(h, a) <= Clockwise(h, b) && Clockwise(p, b) <= Clockwise(p, a);
      assert Clockwise(h, a) == Clockwise(h, p) + Clockwise(p, a);
      assert Clockwise(h, b) == Clockwise(h, p) + Clockwise(p, b);
    }
  }

  ghost predicate MovesOwnOnly(hash: PointHash, ring: Ring, node: nat, v: nat) {
    forall h: nat :: h < WORD && Owner(ring, h) != node ==> Owner(Drop(hash, ring, node, v), h) == Owner(ring, h)
  }

  /** `q` is the first point clockwise from `p` that is not one of the node's. */
  ghost predicate NextOther(hash: PointHash, ring: Ring, node: nat, v: nat, p: nat, q: nat)
    requires p < WORD
  {
    && q in ring && !IsPoint(hash, node, v, q)
    && forall r :: r in ring && !IsPoint(hash, node, v, r) ==> Clockwise(p, q) <= Clockwise(p, r)
  }

  /** The first point after `p` that is not the node's has the owner of `p`; with no such point that owner is node 0. */
  ghost predicate Sheltered(hash: PointHash, ring: Ring, node: nat, v: nat, p: nat)
    requires p in ring && p < WORD
  {
    || (exists q :: NextOther(hash, ring, node, v, p, q) && ring[q] == ring[p])
    || ((forall q :: q in ring ==> IsPoint(hash, node, v, q)) && ring[p] == 0)
  }

  lemma ShelteredStays(hash: PointHash, ring: Ring, node: nat, v: nat, p: nat)
    requires OnCircle(ring) && p in ring
    ensures Owner(Drop(hash, ring, node, v), p) == ring[p] <==> Sheltered(hash, ring, node, v, p)
  {
    var after := Drop(hash, ring, node, v);
    DropOnCircle(hash, ring, node, v);
    forall q
      ensures q in after <==> q in ring && !IsPoint(hash, node, v, q)
      ensures q in after ==> after[q] == ring[q]
    {
      DropPoints(hash, ring, node, v, q);
    }
    if after.Keys != {} {
      var r := OwnerIsNext(after, p);
      assert NextOther(hash, ring, node, v, p, r);
      assert !IsPoint(hash, node, v, r);
      forall q | NextOther(hash, ring, node, v, p, q) ensures q == r {
        NextIsUnique(after, p, q, r);
      }
    } else {
      assert forall q :: q in ring ==> q !in after.Keys;
    }
  }

  /**
   * Points shared or not, removing a node moves only its own keys if and only if behind every point
   * of it that another node owns, the first point that is not its own belongs to that node too.
   */
  lemma DropExact(hash: PointHash, ring: Ring, node: nat, v: nat)
    requires OnCircle(ring)
    ensures MovesOwnOnly(hash, ring, node, v) <==>
      forall p :: p in ring && IsPoint(hash, node, v, p) && ring[p] != node ==> Sheltered(hash, ring, node, v, p)
  {
    forall p | p in ring ensures Owner(Drop(hash, ring, node, v), p) == ring[p] <==> Sheltered(hash, ring, node, v, p) {
      ShelteredStays(hash, ring, node, v, p);
    }
    DropExactAfter(hash, ring, node, v);
  }

  lemma DropExactAfter(hash: PointHash, ring: Ring, node: nat, v: nat)
    requires OnCircle(ring)
    ensures MovesOwnOnly(hash, ring, node, v) <==>
      forall p :: p in ring && IsPoint(hash, node, v, p) && ring[p] != node ==>
        Owner(Drop(hash, ring, node, v), p) == ring[p]
  {
    var after := Drop(hash, ring, node, v);
    DropOnCircle(hash, ring, node, v);
    forall q ensures q in after <==> q in ring && !IsPoint(hash, node, v, q) {
      DropPoints(hash, ring, node, v, q);
    }
    forall p | p in ring ensures Owner(ring, p) == ring[p] {
      StillNext(ring, ring, p, p);
    }
    if forall p :: p in ring && IsPoint(hash, node, v, p) && ring[p] != node ==> Owner(after, p) == ring[p] {
      forall h: nat | h < WORD && Owner(ring, h) != node ensures Owner(after, h) == Owner(ring, h) {
        if ring.Keys == {} {
          assert after.Keys == {};
        } else {
          var p := OwnerIsNext(ring, h);
          SameFromNext(after, ring, h, p);
          if p in after {
            DropPoints(hash, ring, node, v, p);
            StillNext(after, ring, h, p);
          }
        }
      }
    }
  }

  /** When two nodes share a point, removing one can move a key of the other to a third. */
  lemma SharedPointMovesOthers(hash: PointHash)
    requires hash == ((n, i) => if n == 3 then 9 else 5)
    ensures var ring := After(hash, [Join(3), Join(2), Join(1)], 1);
      Owner(ring, 5) == 1 && Owner(Drop(hash, ring, 2, 1), 5) == 3
  {
    var changes := [Join(3), Join(2), Join(1)];
    assert changes[..2] == [Join(3), Join(2)] && [Join(3), Join(2)][..1] == [Join(3)] && [Join(3)][..0] == [];
    assert Add(hash, map[], 3, 0) == map[] && Add(hash, map[], 3, 1) == map[9 := 3];
    assert After(hash, [Join(3)], 1) == map[9 := 3];
    assert Add(hash, map[9 := 3], 2, 0) == map[9 := 3];
    assert After(hash, [Join(3), Join(2)], 1) == map[9 := 3, 5 := 2];
    assert Add(hash, map[9 := 3, 5 := 2], 1, 0) == map[9 := 3, 5 := 2];
    var ring := After(hash, changes, 1);
    assert ring == map[9 := 3, 5 := 1];
    assert Drop(hash, ring, 2, 0) == ring;
    var left := Drop(hash, ring, 2, 1);
    assert left == map[9 := 3];
    assert 5 in From(ring, 5) && 9 in From(left, 5);
    LeastIsOne(From(ring, 5), 5);
    LeastIsOne(From(left, 5), 9);
  }

  /** Removing a node just added restores the ring when its points were free. */
  lemma DropUndoesAdd(hash: PointHash, ring: Ring, node: nat, v: nat)
    requires forall p :: p in ring ==> !IsPoint(hash, node, v, p)
    ensures Drop(hash, Add(hash, ring, node, v), node, v) == ring
  {
    var after := Drop(hash, Add(hash, ring, node, v), node, v);
    forall p
      ensures p in after <==> p in ring
      ensures p in ring ==> after[p] == ring[p]
    {
      AddPoints(hash, ring, node, v, p);
      DropPoints(hash, Add(hash, ring, node, v), node, v, p);
    }
  }

  // ---------- whole runs ----------

  datatype Change = Join(node: nat) | Leave(node: nat)

  function Apply(hash: PointHash, ring: Ring, c: Change, v: nat): Ring {
    match c
    case Join(n) => Add(hash, ring, n, v)
    case Leave(n) => Drop(hash, ring, n, v)
  }

  function After(hash: PointHash, changes: seq<Change>, v: nat): Ring {
    if changes == [] then map[] else Apply(hash, After(hash, changes[..|changes| - 1], v), changes[|changes| - 1], v)
  }

  function Members(changes: seq<Change>): set<nat> {
    if changes == [] then {}
    else
      var before := Members(changes[..|changes| - 1]);
      match changes[|changes| - 1]
      case Join(n) => before + {n}
      case Leave(n) => before - {n}
  }

  /** No two virtual points share a hash. */
  ghost predicate DistinctPoints(hash: PointHash, v: nat) {
    forall p, m: nat, n: nat :: IsPoint(hash, m, v, p) && IsPoint(hash, n, v, p) ==> m == n
  }

  /** The ring holds exactly the points of the nodes in `members`, each owned by its node. */
  ghost predicate Holds(hash: PointHash, ring: Ring, members: set<nat>, v: nat) {
    && (forall p, n :: n in members && IsPoint(hash, n, v, p) ==> p in ring)
    && (forall p :: p in ring ==> ring[p] in members && IsPoint(hash, ring[p], v, p))
  }

  /** With distinct points the ring is a function of who is in it, whatever the order of joins and leaves. */
  lemma {:induction false} RunHolds(hash: PointHash, changes: seq<Change>, v: nat)
    requires DistinctPoints(hash, v)
    ensures Holds(hash, After(hash, changes, v), Members(changes), v)
  {
    if changes != [] {
      var before := changes[..|changes| - 1];
      RunHolds(hash, before, v);
      ChangeHolds(hash, After(hash, before, v), Members(before), changes[|changes| - 1], v);
    }
  }

  lemma ChangeHolds(hash: PointHash, ring: Ring, members: set<nat>, c: Change, v: nat)
    requires DistinctPoints(hash, v) && Holds(hash, ring, members, v)
    ensures Holds(hash, Apply(hash, ring, c, v), if c.Join? then members + {c.node} else members - {c.node}, v)
  {
    hide IsPoint;
    forall p
      ensures c.Join? ==> (p in Add(hash, ring, c.node, v) <==> p in ring || IsPoint(hash, c.node, v, p))
      ensures c.Join? && p in Add(hash, ring, c.node, v) ==>
        Add(hash, ring, c.node, v)[p] == if IsPoint(hash, c.node, v, p) then c.node else ring[p]
      ensures c.Leave? ==> (p in Drop(hash, ring, c.node, v) <==> p in ring && !IsPoint(hash, c.node, v, p))
      ensures c.Leave? && p in Drop(hash, ring, c.node, v) ==> Drop(hash, ring, c.node, v)[p] == ring[p]
    {
      AddPoints(hash, ring, c.node, v, p);
      DropPoints(hash, ring, c.node, v, p);
    }
  }

  lemma HoldsIsUnshared(hash: PointHash, ring: Ring, members: set<nat>, v: nat, node: nat)
    requires DistinctPoints(hash, v) && Holds(hash, ring, members, v)
    ensures Unshared(hash, ring, node, v)
  {
  }

  lemma {:induction false} RunOnCircle(hash: PointHash, changes: seq<Change>, v: nat)
    requires Hashes64(hash)
    ensures OnCircle(After(hash, changes, v))
  {
    if changes != [] {
      var before, last := changes[..|changes| - 1], changes[|changes| - 1];
      RunOnCircle(hash, before, v);
      AddOnCircle(hash, After(hash, before, v), last.node, v);
      DropOnCircle(hash, After(hash, before, v), last.node, v);
    }
  }

  /**
   * After any run a join moves keys only onto the joiner, and with distinct points a leave moves
   * only the leaver's keys.
   */
  lemma RunMoves(hash: PointHash, changes: seq<Change>, v: nat, node: nat, h: nat)
    requires Hashes64(hash) && h < WORD
    ensures Owner(After(hash, changes + [Join(node)], v), h) in {Owner(After(hash, changes, v), h), node}
    ensures DistinctPoints(hash, v) && Owner(After(hash, changes, v), h) != node ==>
      Owner(After(hash, changes + [Leave(node)], v), h) == Owner(After(hash, changes, v), h)
  {
    var ring := After(hash, changes, v);
    RunOnCircle(hash, changes, v);
    assert (changes + [Join(node)])[..|changes|] == changes && (changes + [Leave(node)])[..|changes|] == changes;
    AddMovesOntoNew(hash, ring, node, v, h);
    if DistinctPoints(hash, v) && Owner(ring, h) != node {
      RunHolds(hash, changes, v);
      HoldsIsUnshared(hash, ring, Members(changes), v, node);
      DropMovesOwnKeys(hash, ring, node, v, h);
    }
  }

  /** Two rings with the same members place every key alike. */
  lemma SameMembersSameRing(hash: PointHash, a: seq<Change>, b: seq<Change>, v: nat)
    requires DistinctPoints(hash, v) && Members(a) == Members(b)
    ensures After(hash, a, v) == After(hash, b, v)
  {
    RunHolds(hash, a, v);
    RunHolds(hash, b, v);
    var r, s := After(hash, a, v), After(hash, b, v);
    forall p
      ensures p in r <==> p in s
      ensures p in r && p in s ==> r[p] == s[p]
    {
      if p in r {
        assert r[p] in Members(b) && IsPoint(hash, r[p], v, p);
      }
      if p in s {
        assert s[p] in Members(a) && IsPoint(hash, s[p], v, p);
      }
    }
  }

  // ---------- the ring object ----------

  class ConsistentHashRing {
    const hash: PointHash
    const virtualNodes: nat
    var ring: Ring

    constructor (hash: PointHash, virtualNodes: nat)
      ensures this.hash == hash && this.virtualNodes == virtualNodes && ring == map[]
    {
      this.hash, this.virtualNodes, ring := hash, virtualNodes, map[];
    }

    method AddNode(node: nat)
      modifies this
      ensures ring == Add(hash, old(ring), node, virtualNodes)
    {
      for i := 0 to virtualNodes
        invariant ring == Add(hash, old(ring), node, i)
      {
        ring := ring[hash(node, i) := node];
      }
    }

    method RemoveNode(node: nat)
      modifies this
      ensures ring == Drop(hash, old(ring), node, virtualNodes)
    {
      for i := 0 to virtualNodes
        invariant ring == Drop(hash, old(ring), node, i)
      {
        ring := ring - {hash(node, i)};
      }
    }

    method GetNode(h: nat) returns (node: nat)
      ensures node == Owner(ring, h)
    {
      if ring.Keys == {} {
        return 0;
      }
      var later := From(ring, h);
      var from := if later != {} then later else ring.Keys;
      var p := First(from);
      LeastIsOne(from, p);
      node := ring[p];
    }
  }

  lemma LeastIsOne(s: set<nat>, p: nat)
    requires IsLeast(s, p)
    ensures Least(s) == p
  {
  }

  /** The first key of an ordered map. */
  method First(s: set<nat>) returns (x: nat)
    requires s != {}
    ensures IsLeast(s, x)
  {
    ghost var w := LeastExists(s);
    x :| x in s && forall y :: y in s ==> x <= y;
  }
}
