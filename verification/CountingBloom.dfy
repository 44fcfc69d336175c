/**
 * The counting Bloom filter of src/distributed/bloom.rs: sixteen 4-bit counters to a 64-bit word,
 * stepped by adding or subtracting a power of sixteen.
 */
module Nibbles {
  import opened Bits

  function Pow16(i: nat): (r: nat)
    ensures r > 0
  {
    if i == 0 then 1 else 16 * Pow16(i - 1)
  }

  function ShrNibbles(w: nat, i: nat): nat {
    if i == 0 then w else ShrNibbles(w / 16, i - 1)
  }

  function Nibble(w: nat, i: nat): (r: nat)
    ensures r < 16
  {
    ShrNibbles(w, i) % 16
  }

  lemma {:induction false} ZeroNibbles(i: nat)
    ensures Nibble(0, i) == 0
  {
    if i > 0 {
      ZeroNibbles(i - 1);
    }
  }

  /** Counting up one nibble that is not full carries into no other. */
  lemma {:induction false} AddNibble(w: nat, i: nat, j: nat)
    requires Nibble(w, i) < 15
    ensures Nibble(w + Pow16(i), j) == Nibble(w, j) + (if i == j then 1 else 0)
  {
    if i == 0 {
      assert (w + 1) / 16 == w / 16;
    } else {
      assert (w + Pow16(i)) / 16 == w / 16 + Pow16(i - 1);
      if j > 0 {
        AddNibble(w / 16, i - 1, j - 1);
      }
    }
  }

  /** Counting down one nibble that is not zero borrows from no other. */
  lemma {:induction false} SubNibble(w: nat, i: nat, j: nat)
    requires Nibble(w, i) > 0
    ensures w >= Pow16(i)
    ensures Nibble(w - Pow16(i), j) == Nibble(w, j) - (if i == j then 1 else 0)
  {
    if i == 0 {
      assert (w - 1) / 16 == w / 16;
    } else {
      SubNibble(w / 16, i - 1, if j > 0 then j - 1 else 0);
      assert (w - Pow16(i)) / 16 == w / 16 - Pow16(i - 1);
    }
  }

  lemma {:induction false} AddBelow(w: nat, i: nat, n: nat)
    requires w < Pow16(n) && i < n && Nibble(w, i) < 15
    ensures w + Pow16(i) < Pow16(n)
  {
    if i > 0 {
      AddBelow(w / 16, i - 1, n - 1);
    }
  }

  lemma WordIsPow16()
    ensures Pow16(16) == WORD
  {
    assert Pow16(4) == 65536;
    Pow16By4(4);
    Pow16By4(8);
    Pow16By4(12);
  }

  lemma Pow16By4(i: nat)
    ensures Pow16(i + 4) == 65536 * Pow16(i)
  {
    assert Pow16(i + 2) == 256 * Pow16(i);
    assert Pow16(i + 4) == 256 * Pow16(i + 2);
  }
}

module CountingBloom {
  import opened Nibbles
  import opened Bloom

  datatype Counting = Counting(counters: seq<nat>, numCounters: nat, numHashes: nat, count: nat) {
    predicate Valid() {
      numCounters > 0 && |counters| == CounterWords(numCounters) && AllWords(counters)
    }
  }

  function CounterWords(numCounters: nat): nat { (numCounters + 15) / 16 }

  function Counter(counters: seq<nat>, b: nat): nat
    requires b / 16 < |counters|
  {
    Nibble(counters[b / 16], b % 16)
  }

  function Increment(counters: seq<nat>, b: nat): (r: seq<nat>)
    requires b / 16 < |counters|
    ensures |r| == |counters|
  {
    if Counter(counters, b) < 15 then counters[b / 16 := counters[b / 16] + Pow16(b % 16)] else counters
  }

  function Decrement(counters: seq<nat>, b: nat): (r: seq<nat>)
    requires b / 16 < |counters|
    ensures |r| == |counters|
  {
    if Counter(counters, b) > 0 then
      SubNibble(counters[b / 16], b % 16, 0);
      counters[b / 16 := counters[b / 16] - Pow16(b % 16)]
    else counters
  }

  function AddCapped(c: nat, n: nat): nat { if c + n > 15 then 15 else c + n }

  function SubFloored(c: nat, n: nat): nat { if c < n then 0 else c - n }

  /** An increment raises its own counter, up to 15, and no other; no word overflows. */
  lemma IncrementIsLocal(counters: seq<nat>, b: nat, c: nat)
    requires b / 16 < |counters| && c / 16 < |counters|
    ensures Counter(Increment(counters, b), c) == AddCapped(Counter(counters, c), if b == c then 1 else 0)
  {
    if b / 16 == c / 16 && Counter(counters, b) < 15 {
      AddNibble(counters[b / 16], b % 16, c % 16);
      assert b == 16 * (b / 16) + b % 16 && c == 16 * (c / 16) + c % 16;
    }
  }

  lemma IncrementFits(counters: seq<nat>, b: nat)
    requires b / 16 < |counters| && AllWords(counters)
    ensures AllWords(Increment(counters, b))
  {
    if Counter(counters, b) < 15 {
      WordIsPow16();
      AddBelow(counters[b / 16], b % 16, 16);
    }
  }

  /** A decrement lowers its own counter, down to 0, and no other. */
  lemma DecrementIsLocal(counters: seq<nat>, b: nat, c: nat)
    requires b / 16 < |counters| && c / 16 < |counters|
    ensures Counter(Decrement(counters, b), c) == SubFloored(Counter(counters, c), if b == c then 1 else 0)
  {
    if b / 16 == c / 16 && Counter(counters, b) > 0 {
      SubNibble(counters[b / 16], b % 16, c % 16);
      assert b == 16 * (b / 16) + b % 16 && c == 16 * (c / 16) + c % 16;
    }
  }

  lemma DecrementFits(counters: seq<nat>, b: nat)
    requires b / 16 < |counters| && AllWords(counters)
    ensures AllWords(Decrement(counters, b))
  {
    if Counter(counters, b) > 0 {
      SubNibble(counters[b / 16], b % 16, 0);
    }
  }

  // ---------- what the operations do ----------

  function AllZero(numCounters: nat, numHashes: nat): Counting {
    Counting(seq(CounterWords(numCounters), i => 0), numCounters, numHashes, 0)
  }

  function RaiseFirst(hash: Hash, counters: seq<nat>, item: Item, n: nat, slots: nat): (r: seq<nat>)
    requires slots > 0 && |counters| == CounterWords(slots)
    ensures |r| == |counters|
  {
    if n == 0 then counters
    else Increment(RaiseFirst(hash, counters, item, n - 1, slots), Index(hash, item, n - 1, slots))
  }

  function LowerFirst(hash: Hash, counters: seq<nat>, item: Item, n: nat, slots: nat): (r: seq<nat>)
    requires slots > 0 && |counters| == CounterWords(slots)
    ensures |r| == |counters|
  {
    if n == 0 then counters
    else Decrement(LowerFirst(hash, counters, item, n - 1, slots), Index(hash, item, n - 1, slots))
  }

  function Raise(hash: Hash, f: Counting, item: Item): (r: Counting)
    requires f.Valid()
    ensures r.Valid() && r.numCounters == f.numCounters && r.numHashes == f.numHashes
  {
    RaiseFits(hash, f.counters, item, f.numHashes, f.numCounters);
    f.(counters := RaiseFirst(hash, f.counters, item, f.numHashes, f.numCounters), count := f.count + 1)
  }

  predicate MayHold(hash: Hash, f: Counting, item: Item)
    requires f.Valid()
  {
    forall i: nat :: i < f.numHashes ==> Counter(f.counters, Index(hash, item, i, f.numCounters)) > 0
  }

  function Lower(hash: Hash, f: Counting, item: Item): (r: Counting)
    requires f.Valid()
    ensures r.Valid() && r.numCounters == f.numCounters && r.numHashes == f.numHashes
  {
    if !MayHold(hash, f, item) then f
    else
      LowerFits(hash, f.counters, item, f.numHashes, f.numCounters);
      f.(counters := LowerFirst(hash, f.counters, item, f.numHashes, f.numCounters), count := SubFloored(f.count, 1))
  }

  lemma {:induction false} RaiseFits(hash: Hash, counters: seq<nat>, item: Item, n: nat, slots: nat)
    requires slots > 0 && |counters| == CounterWords(slots) && AllWords(counters)
    ensures AllWords(RaiseFirst(hash, counters, item, n, slots))
  {
    hide AllWords, Index, Increment;
    if n > 0 {
      RaiseFits(hash, counters, item, n - 1, slots);
      IncrementFits(RaiseFirst(hash, counters, item, n - 1, slots), Index(hash, item, n - 1, slots));
    }
  }

  lemma {:induction false} LowerFits(hash: Hash, counters: seq<nat>, item: Item, n: nat, slots: nat)
    requires slots > 0 && |counters| == CounterWords(slots) && AllWords(counters)
    ensures AllWords(LowerFirst(hash, counters, item, n, slots))
  {
    hide AllWords, Index, Decrement;
    if n > 0 {
      LowerFits(hash, counters, item, n - 1, slots);
      DecrementFits(LowerFirst(hash, counters, item, n - 1, slots), Index(hash, item, n - 1, slots));
    }
  }

  /** How many of the first `n` hash numbers of `item` point at slot `b`. */
  function Hits(hash: Hash, item: Item, n: nat, slots: nat, b: nat): nat
    requires slots > 0
  {
    if n == 0 then 0
    else Hits(hash, item, n - 1, slots, b) + (if Index(hash, item, n - 1, slots) == b then 1 else 0)
  }

  /** How many (item, hash number) pairs of the items `held` point at slot `b`. */
  function Load(hash: Hash, held: seq<Item>, n: nat, slots: nat, b: nat): nat
    requires slots > 0
  {
    if held == [] then 0
    else Hits(hash, held[0], n, slots, b) + Load(hash, held[1..], n, slots, b)
  }

  /** Every counter rises by the number of hash numbers pointing at it, up to 15. */
  lemma {:induction false} RaiseCounts(hash: Hash, counters: seq<nat>, item: Item, n: nat, slots: nat, b: nat)
    requires slots > 0 && |counters| == CounterWords(slots) && b < slots
    ensures Counter(RaiseFirst(hash, counters, item, n, slots), b) ==
      AddCapped(Counter(counters, b), Hits(hash, item, n, slots, b))
  {
    hide Index, Increment, Counter;
    CounterBelow(counters, b);
    if n > 0 {
      RaiseCounts(hash, counters, item, n - 1, slots, b);
      IncrementIsLocal(RaiseFirst(hash, counters, item, n - 1, slots), Index(hash, item, n - 1, slots), b);
    }
  }

  /** Every counter falls by the number of hash numbers pointing at it, down to 0. */
  lemma {:induction false} LowerCounts(hash: Hash, counters: seq<nat>, item: Item, n: nat, slots: nat, b: nat)
    requires slots > 0 && |counters| == CounterWords(slots) && b < slots
    ensures Counter(LowerFirst(hash, counters, item, n, slots), b) ==
      SubFloored(Counter(counters, b), Hits(hash, item, n, slots, b))
  {
    hide Index, Decrement, Counter;
    if n > 0 {
      LowerCounts(hash, counters, item, n - 1, slots, b);
      DecrementIsLocal(LowerFirst(hash, counters, item, n - 1, slots), Index(hash, item, n - 1, slots), b);
    }
  }

  lemma CounterBelow(counters: seq<nat>, b: nat)
    requires b / 16 < |counters|
    ensures Counter(counters, b) <= 15
  {
  }

  // ---------- the counters are the loads ----------

  function LoadOf(hash: Hash, f: Counting, held: seq<Item>, b: nat): nat
    requires f.numCounters > 0
  {
    Load(hash, held, f.numHashes, f.numCounters, b)
  }

  /** Every counter equals its true load, and the item count the number held. */
  ghost predicate Agrees(hash: Hash, f: Counting, held: seq<Item>)
    requires f.Valid()
  {
    && f.count == |held|
    && forall b: nat :: b < f.numCounters ==> Counter(f.counters, b) == LoadOf(hash, f, held, b)
  }

  ghost predicate Fits(hash: Hash, f: Counting, held: seq<Item>)
    requires f.numCounters > 0
  {
    forall b: nat :: b < f.numCounters ==> LoadOf(hash, f, held, b) <= 15
  }

  function WithoutOne(held: seq<Item>, item: Item): (r: seq<Item>)
    ensures item in held ==> |r| == |held| - 1
    ensures item !in held ==> r == held
  {
    if held == [] then []
    else if held[0] == item then held[1..]
    else [held[0]] + WithoutOne(held[1..], item)
  }

  lemma {:induction false} LoadSnoc(hash: Hash, held: seq<Item>, item: Item, n: nat, slots: nat, b: nat)
    requires slots > 0
    ensures Load(hash, held + [item], n, slots, b) == Load(hash, held, n, slots, b) + Hits(hash, item, n, slots, b)
  {
    if held != [] {
      assert (held + [item])[1..] == held[1..] + [item];
      LoadSnoc(hash, held[1..], item, n, slots, b);
    }
  }

  lemma {:induction false} LoadWithoutOne(hash: Hash, held: seq<Item>, item: Item, n: nat, slots: nat, b: nat)
    requires slots > 0 && item in held
    ensures Load(hash, held, n, slots, b) == Load(hash, WithoutOne(held, item), n, slots, b) +
      Hits(hash, item, n, slots, b)
  {
    if held[0] != item {
      LoadWithoutOne(hash, held[1..], item, n, slots, b);
      assert WithoutOne(held, item)[1..] == WithoutOne(held[1..], item);
    }
  }

  lemma {:induction false} IndexIsHit(hash: Hash, item: Item, n: nat, slots: nat, i: nat)
    requires slots > 0 && i < n
    ensures Hits(hash, item, n, slots, Index(hash, item, i, slots)) >= 1
  {
    if i < n - 1 {
      IndexIsHit(hash, item, n - 1, slots, i);
    }
  }

  lemma EmptyAgrees(hash: Hash, numCounters: nat, numHashes: nat)
    requires numCounters > 0
    ensures AllZero(numCounters, numHashes).Valid() && Agrees(hash, AllZero(numCounters, numHashes), [])
  {
    var f := AllZero(numCounters, numHashes);
    forall b: nat | b < numCounters ensures Counter(f.counters, b) == 0 {
      ZeroNibbles(b % 16);
    }
  }

  /** Inserting keeps counters equal to loads exactly when no load passes 15. */
  lemma InsertExact(hash: Hash, f: Counting, held: seq<Item>, item: Item)
    requires f.Valid() && Agrees(hash, f, held)
    ensures Agrees(hash, Raise(hash, f, item), held + [item]) <==> Fits(hash, f, held + [item])
  {
    hide Counter, Load, Hits, RaiseFirst;
    var g := Raise(hash, f, item);
    forall b: nat | b < f.numCounters
      ensures Counter(g.counters, b) ==
        AddCapped(LoadOf(hash, f, held, b), Hits(hash, item, f.numHashes, f.numCounters, b))
      ensures LoadOf(hash, f, held + [item], b) == LoadOf(hash, f, held, b) +
        Hits(hash, item, f.numHashes, f.numCounters, b)
      ensures LoadOf(hash, g, held + [item], b) == LoadOf(hash, f, held + [item], b)
    {
      RaiseCounts(hash, f.counters, item, f.numHashes, f.numCounters, b);
      LoadSnoc(hash, held, item, f.numHashes, f.numCounters, b);
    }
  }

  /** A held item is always reported. */
  lemma HeldIsReported(hash: Hash, f: Counting, held: seq<Item>, item: Item)
    requires f.Valid() && Agrees(hash, f, held) && item in held
    ensures MayHold(hash, f, item)
  {
    forall i: nat | i < f.numHashes ensures Counter(f.counters, Index(hash, item, i, f.numCounters)) > 0 {
      var b := Index(hash, item, i, f.numCounters);
      IndexIsHit(hash, item, f.numHashes, f.numCounters, i);
      LoadWithoutOne(hash, held, item, f.numHashes, f.numCounters, b);
    }
  }

  /** Removing a held item succeeds and takes exactly its share off every counter. */
  lemma RemoveHeld(hash: Hash, f: Counting, held: seq<Item>, item: Item)
    requires f.Valid() && Agrees(hash, f, held) && item in held
    ensures MayHold(hash, f, item) && Agrees(hash, Lower(hash, f, item), WithoutOne(held, item))
  {
    HeldIsReported(hash, f, held, item);
    hide Counter, Load, Hits, LowerFirst, MayHold;
    var g := Lower(hash, f, item);
    forall b: nat | b < f.numCounters ensures Counter(g.counters, b) == LoadOf(hash, g, WithoutOne(held, item), b) {
      LowerCounts(hash, f.counters, item, f.numHashes, f.numCounters, b);
      LoadWithoutOne(hash, held, item, f.numHashes, f.numCounters, b);
    }
  }

  /** Removing an item that is not held is harmless exactly when the filter denies holding it. */
  lemma RemoveOtherExact(hash: Hash, f: Counting, held: seq<Item>, item: Item)
    requires f.Valid() && Agrees(hash, f, held) && item !in held && f.numHashes > 0
    ensures Agrees(hash, Lower(hash, f, item), held) <==> !MayHold(hash, f, item)
  {
    if MayHold(hash, f, item) {
      var b := Index(hash, item, 0, f.numCounters);
      IndexIsHit(hash, item, f.numHashes, f.numCounters, 0);
      LowerCounts(hash, f.counters, item, f.numHashes, f.numCounters, b);
    }
  }

  // ---------- whole runs ----------

  datatype Op = Add(item: Item) | Drop(item: Item) | Wipe

  /** A filter's shape, and the hash it uses. */
  datatype Setup = Setup(hash: Hash, numCounters: nat, numHashes: nat)

  function Step(hash: Hash, f: Counting, op: Op): (r: Counting)
    requires f.Valid()
    ensures r.Valid() && r.numCounters == f.numCounters && r.numHashes == f.numHashes
  {
    match op
    case Add(item) => Raise(hash, f, item)
    case Drop(item) => Lower(hash, f, item)
    case Wipe => Wiped(f)
  }

  function Wiped(f: Counting): Counting {
    f.(counters := seq(|f.counters|, i => 0), count := 0)
  }

  function StepHeld(held: seq<Item>, op: Op): seq<Item> {
    match op
    case Add(item) => held + [item]
    case Drop(item) => WithoutOne(held, item)
    case Wipe => []
  }

  function After(s: Setup, ops: seq<Op>): (f: Counting)
    requires s.numCounters > 0
    ensures f.Valid() && f.numCounters == s.numCounters && f.numHashes == s.numHashes
  {
    if ops == [] then AllZero(s.numCounters, s.numHashes)
    else Step(s.hash, After(s, ops[..|ops| - 1]), ops[|ops| - 1])
  }

  function Held(ops: seq<Op>): seq<Item> {
    if ops == [] then [] else StepHeld(Held(ops[..|ops| - 1]), ops[|ops| - 1])
  }

  /** An insertion takes no load past 15; a removal names a held item, or one the filter denies. */
  ghost predicate Safe(hash: Hash, f: Counting, held: seq<Item>, op: Op)
    requires f.Valid()
  {
    match op
    case Add(item) => Fits(hash, f, held + [item])
    case Drop(item) => item in held || !MayHold(hash, f, item)
    case Wipe => true
  }

  ghost predicate SafeRun(s: Setup, ops: seq<Op>)
    requires s.numCounters > 0
  {
    ops == [] ||
    (var before := ops[..|ops| - 1];
     SafeRun(s, before) && Safe(s.hash, After(s, before), Held(before), ops[|ops| - 1]))
  }

  lemma StepAgrees(hash: Hash, f: Counting, held: seq<Item>, op: Op)
    requires f.Valid() && Agrees(hash, f, held) && Safe(hash, f, held, op)
    ensures Agrees(hash, Step(hash, f, op), StepHeld(held, op))
  {
    match op
    case Add(item) =>
      InsertExact(hash, f, held, item);
    case Drop(item) =>
      if item in held {
        RemoveHeld(hash, f, held, item);
      }
    case Wipe =>
      EmptyAgrees(hash, f.numCounters, f.numHashes);
      assert Wiped(f) == AllZero(f.numCounters, f.numHashes);
  }

  /**
   * After every safe run each counter is its true load, the count is the number held, and every held
   * item is reported.
   */
  lemma {:induction false} RunAgrees(s: Setup, ops: seq<Op>)
    requires s.numCounters > 0 && SafeRun(s, ops)
    ensures Agrees(s.hash, After(s, ops), Held(ops))
    ensures forall item :: item in Held(ops) ==> MayHold(s.hash, After(s, ops), item)
  {
    if ops == [] {
      EmptyAgrees(s.hash, s.numCounters, s.numHashes);
    } else {
      var before := ops[..|ops| - 1];
      RunAgrees(s, before);
      StepAgrees(s.hash, After(s, before), Held(before), ops[|ops| - 1]);
    }
    forall item | item in Held(ops) ensures MayHold(s.hash, After(s, ops), item) {
      HeldIsReported(s.hash, After(s, ops), Held(ops), item);
    }
  }

  // ---------- past the limit ----------

  function Times(op: Op, n: nat): seq<Op> {
    seq(n, i => op)
  }

  function Copies(item: Item, n: nat): seq<Item> {
    seq(n, i => item)
  }

  /** The only counter of an item under a single hash. */
  function OnlyCounter(s: Setup, ops: seq<Op>, item: Item): nat
    requires s.numCounters > 0
  {
    Counter(After(s, ops).counters, Index(s.hash, item, 0, s.numCounters))
  }

  lemma OneHit(s: Setup, item: Item)
    requires s.numCounters > 0
    ensures Hits(s.hash, item, 1, s.numCounters, Index(s.hash, item, 0, s.numCounters)) == 1
  {
    assert Hits(s.hash, item, 0, s.numCounters, Index(s.hash, item, 0, s.numCounters)) == 0;
  }

  lemma AddOnce(s: Setup, ops: seq<Op>, item: Item)
    requires s.numCounters > 0 && s.numHashes == 1
    ensures OnlyCounter(s, ops + [Add(item)], item) == AddCapped(OnlyCounter(s, ops, item), 1)
    ensures Held(ops + [Add(item)]) == Held(ops) + [item]
  {
    hide Index, Counter, RaiseFirst, Hits;
    assert (ops + [Add(item)])[..|ops|] == ops;
    OneHit(s, item);
    RaiseCounts(s.hash, After(s, ops).counters, item, 1, s.numCounters, Index(s.hash, item, 0, s.numCounters));
  }

  lemma DropOnce(s: Setup, ops: seq<Op>, item: Item)
    requires s.numCounters > 0 && s.numHashes == 1
    ensures OnlyCounter(s, ops + [Drop(item)], item) == SubFloored(OnlyCounter(s, ops, item), 1)
    ensures Held(ops + [Drop(item)]) == WithoutOne(Held(ops), item)
  {
    hide Index, Counter, LowerFirst, Hits;
    assert (ops + [Drop(item)])[..|ops|] == ops;
    OneHit(s, item);
    LowerCounts(s.hash, After(s, ops).counters, item, 1, s.numCounters, Index(s.hash, item, 0, s.numCounters));
  }

  lemma NothingAdded(s: Setup, item: Item)
    requires s.numCounters > 0
    ensures OnlyCounter(s, [], item) == 0 && Held([]) == []
  {
    ZeroNibbles(Index(s.hash, item, 0, s.numCounters) % 16);
  }

  lemma {:induction false} AddTimes(s: Setup, item: Item, n: nat)
    requires s.numCounters > 0 && s.numHashes == 1
    ensures OnlyCounter(s, Times(Add(item), n), item) == AddCapped(0, n)
    ensures Held(Times(Add(item), n)) == Copies(item, n)
  {
    hide OnlyCounter, Held;
    if n == 0 {
      NothingAdded(s, item);
      assert Times(Add(item), 0) == [] && Copies(item, 0) == [];
    } else {
      AddTimes(s, item, n - 1);
      AddOnce(s, Times(Add(item), n - 1), item);
      assert Times(Add(item), n) == Times(Add(item), n - 1) + [Add(item)];
      assert Copies(item, n) == Copies(item, n - 1) + [item];
    }
  }

  lemma {:induction false} DropTimes(s: Setup, item: Item, n: nat, m: nat)
    requires s.numCounters > 0 && s.numHashes == 1 && m <= n
    ensures OnlyCounter(s, Times(Add(item), n) + Times(Drop(item), m), item) == SubFloored(AddCapped(0, n), m)
    ensures Held(Times(Add(item), n) + Times(Drop(item), m)) == Copies(item, n - m)
  {
    hide OnlyCounter, Held;
    var added := Times(Add(item), n);
    if m == 0 {
      assert added + Times(Drop(item), 0) == added;
      AddTimes(s, item, n);
    } else {
      DropTimes(s, item, n, m - 1);
      DropOnce(s, added + Times(Drop(item), m - 1), item);
      assert added + Times(Drop(item), m) == added + Times(Drop(item), m - 1) + [Drop(item)];
      CopiesWithoutOne(item, n - m + 1);
    }
  }

  lemma CopiesWithoutOne(item: Item, n: nat)
    requires n > 0
    ensures WithoutOne(Copies(item, n), item) == Copies(item, n - 1)
  {
    assert Copies(item, n)[0] == item;
    assert Copies(item, n)[1..] == Copies(item, n - 1);
  }

  /**
   * Without the bound on loads, held items are lost: an item added `n > 15` times and dropped 15 times
   * is still held, yet denied.
   */
  lemma SaturationLosesItem(s: Setup, item: Item, n: nat)
    requires s.numCounters > 0 && s.numHashes == 1 && n > 15
    ensures var ops := Times(Add(item), n) + Times(Drop(item), 15);
      item in Held(ops) && !MayHold(s.hash, After(s, ops), item)
  {
    DropTimes(s, item, n, 15);
    assert Copies(item, n - 15)[0] == item;
    assert OnlyCounter(s, Times(Add(item), n) + Times(Drop(item), 15), item) == 0;
  }

  /**
   * Dropping an item that was never added, but shares its only slot with one that was, makes the
   * filter deny the latter.
   */
  lemma FalsePositiveRemovalLosesItem(s: Setup, item: Item, other: Item)
    requires s.numCounters > 0 && s.numHashes == 1 && item != other
    requires Index(s.hash, item, 0, s.numCounters) == Index(s.hash, other, 0, s.numCounters)
    ensures Held([Add(item), Drop(other)]) == [item] && !MayHold(s.hash, After(s, [Add(item), Drop(other)]), item)
  {
    NothingAdded(s, item);
    AddOnce(s, [], item);
    DropOnce(s, [Add(item)], other);
    assert [] + [Add(item)] == [Add(item)] && [Add(item)] + [Drop(other)] == [Add(item), Drop(other)];
    assert OnlyCounter(s, [Add(item), Drop(other)], item) == OnlyCounter(s, [Add(item), Drop(other)], other) == 0;
  }

  // ---------- the filter object ----------

  class CountingBloomFilter {
    const hash: Hash
    const numCounters: nat
    const numHashes: nat
    var counters: seq<nat>
    var count: nat

    function View(): Counting
      reads this
    {
      Counting(counters, numCounters, numHashes, count)
    }

    predicate Valid()
      reads this
    {
      View().Valid()
    }

    constructor (hash: Hash, numCounters: nat, numHashes: nat)
      requires numCounters > 0
      ensures Valid() && View() == AllZero(numCounters, numHashes) && this.hash == hash
    {
      this.hash, this.numCounters, this.numHashes := hash, numCounters, numHashes;
      counters, count := seq(CounterWords(numCounters), i => 0), 0;
    }

    method Put(item: Item)
      requires Valid()
      modifies this
      ensures Valid() && View() == Raise(hash, old(View()), item)
    {
      hide AllWords, Index, Increment;
      for i := 0 to numHashes
        invariant |counters| == CounterWords(numCounters) && count == old(count)
        invariant counters == RaiseFirst(hash, old(counters), item, i, numCounters)
      {
        counters := Increment(counters, Index(hash, item, i, numCounters));
      }
      count := count + 1;
      RaiseFits(hash, old(counters), item, numHashes, numCounters);
    }

    method Contains(item: Item) returns (r: bool)
      requires Valid()
      ensures r <==> MayHold(hash, View(), item)
    {
      for i := 0 to numHashes
        invariant forall j: nat :: j < i ==> Counter(counters, Index(hash, item, j, numCounters)) > 0
      {
        if Counter(counters, Index(hash, item, i, numCounters)) == 0 {
          return false;
        }
      }
      r := true;
    }

    method Take(item: Item) returns (taken: bool)
      requires Valid()
      modifies this
      ensures Valid() && View() == Lower(hash, old(View()), item)
      ensures taken <==> old(MayHold(hash, View(), item))
    {
      hide AllWords, Index, Decrement, MayHold;
      taken := Contains(item);
      if !taken {
        return;
      }
      for i := 0 to numHashes
        invariant |counters| == CounterWords(numCounters) && count == old(count)
        invariant counters == LowerFirst(hash, old(counters), item, i, numCounters)
      {
        counters := Decrement(counters, Index(hash, item, i, numCounters));
      }
      count := SubFloored(count, 1);
      LowerFits(hash, old(counters), item, numHashes, numCounters);
    }

    method Reset()
      requires Valid()
      modifies this
      ensures Valid() && View() == Wiped(old(View()))
    {
      counters, count := seq(|counters|, i => 0), 0;
    }
  }
}
