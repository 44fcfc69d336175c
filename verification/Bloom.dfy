/**
 * The Bloom filter of src/distributed/bloom.rs: a bit array packed into 64-bit words. The hash is
 * a function the filter is given.
 */
module Bloom {
  import opened Wrappers
  import opened Bits

  type Item = seq<Byte>

  /** The two halves of an item's 128-bit hash. */
  type Hash = Item -> (nat, nat)

  datatype Filter = Filter(words: seq<nat>, numBits: nat, numHashes: nat, count: nat) {
    /** What every filter keeps: enough words for its bits, and all fields within their width. */
    predicate Valid() {
      && numBits > 0 && numHashes < HALF
      && |words| == WordsFor(numBits)
      && AllWords(words)
    }
  }

  predicate AllWords(words: seq<nat>) {
    forall i :: 0 <= i < |words| ==> words[i] < WORD
  }

  function WordsFor(numBits: nat): nat { (numBits + 63) / 64 }

  /** Double hashing on wrapping 64-bit arithmetic. */
  function Index(hash: Hash, item: Item, i: nat, slots: nat): (r: nat)
    requires slots > 0
    ensures r < slots
  {
    var (h1, h2) := hash(item);
    (h1 + (i * h2) % WORD) % WORD % slots
  }

  /**
   * Reducing each step to 64 bits gives the same slot as reducing once: `h1 + i * h2` modulo 2^64,
   * then modulo the slots.
   */
  lemma IndexWraps(hash: Hash, item: Item, i: nat, slots: nat)
    requires slots > 0
    ensures var (h1, h2) := hash(item); Index(hash, item, i, slots) == (h1 + i * h2) % 0x1_0000_0000_0000_0000 % slots
  {
    var (h1, h2) := hash(item);
    WrapsOnce(h1, i * h2);
  }

  lemma WrapsOnce(a: nat, b: nat)
    ensures (a + b % WORD) % WORD == (a + b) % WORD
  {
  }

  predicate BitAt(words: seq<nat>, b: nat) {
    b / 64 < |words| && Bit(words[b / 64], b % 64)
  }

  /** One of the first `n` hash numbers of `item` points at slot `b`. */
  predicate Points(hash: Hash, item: Item, n: nat, slots: nat, b: nat)
    requires slots > 0
  {
    exists i: nat :: i < n && Index(hash, item, i, slots) == b
  }

  function SetBit(words: seq<nat>, b: nat): (r: seq<nat>)
    requires b / 64 < |words|
    ensures |r| == |words|
  {
    words[b / 64 := Or(words[b / 64], Shl(b % 64))]
  }

  /** Setting a bit sets that bit and no other, in its word or elsewhere. */
  lemma SetBitSets(words: seq<nat>, b: nat, c: nat)
    requires b / 64 < |words|
    ensures BitAt(SetBit(words, b), c) <==> BitAt(words, c) || c == b
  {
    if c / 64 == b / 64 {
      BitOr(words[b / 64], Shl(b % 64), c % 64);
      BitOfShl(b % 64, c % 64);
      assert b == 64 * (b / 64) + b % 64 && c == 64 * (c / 64) + c % 64;
    }
  }

  lemma SetBitBelow(words: seq<nat>, b: nat)
    requires b / 64 < |words| && AllWords(words)
    ensures AllWords(SetBit(words, b))
  {
    WordIsShl();
    ShlAdds(b % 64, 64);
    OrBelow(words[b / 64], Shl(b % 64), 64);
  }

  // ---------- what the operations do ----------

  function Empty(numBits: nat, numHashes: nat): Filter {
    Filter(seq(WordsFor(numBits), i => 0), numBits, numHashes, 0)
  }

  function SetFirst(hash: Hash, words: seq<nat>, item: Item, n: nat, numBits: nat): (r: seq<nat>)
    requires numBits > 0 && |words| == WordsFor(numBits)
    ensures |r| == |words|
  {
    if n == 0 then words
    else SetBit(SetFirst(hash, words, item, n - 1, numBits), Index(hash, item, n - 1, numBits))
  }

  function Insert(hash: Hash, f: Filter, item: Item): (r: Filter)
    requires f.Valid()
    ensures r.Valid() && SameShape(r, f)
  {
    SetFirstBelow(hash, f.words, item, f.numHashes, f.numBits);
    f.(words := SetFirst(hash, f.words, item, f.numHashes, f.numBits), count := f.count + 1)
  }

  function MayContain(hash: Hash, f: Filter, item: Item): bool
    requires f.Valid()
  {
    forall i: nat :: i < f.numHashes ==> BitAt(f.words, Index(hash, item, i, f.numBits))
  }

  function Clear(f: Filter): (r: Filter)
    requires f.Valid()
    ensures r.Valid() && SameShape(r, f)
  {
    f.(words := seq(|f.words|, i => 0), count := 0)
  }

  function OrWords(a: seq<nat>, b: seq<nat>): seq<nat>
    requires |a| == |b|
  {
    seq(|a|, i requires 0 <= i < |a| => Or(a[i], b[i]))
  }

  /** Filters that can be merged. */
  predicate SameShape(f: Filter, g: Filter) {
    f.numBits == g.numBits && f.numHashes == g.numHashes
  }

  function Merge(f: Filter, g: Filter): (r: Filter)
    requires f.Valid() && g.Valid() && SameShape(f, g)
    ensures r.Valid() && SameShape(r, f)
  {
    OrWordsBelow(f.words, g.words);
    f.(words := OrWords(f.words, g.words), count := f.count + g.count)
  }

  lemma {:induction false} SetFirstSets(hash: Hash, words: seq<nat>, item: Item, n: nat, numBits: nat, b: nat)
    requires numBits > 0 && |words| == WordsFor(numBits)
    ensures BitAt(SetFirst(hash, words, item, n, numBits), b) <==> BitAt(words, b) || Points(hash, item, n, numBits, b)
  {
    if n > 0 {
      var last := Index(hash, item, n - 1, numBits);
      SetFirstSets(hash, words, item, n - 1, numBits, b);
      SetBitSets(SetFirst(hash, words, item, n - 1, numBits), last, b);
      PointsSnoc(hash, item, n, numBits, b);
    }
  }

  lemma PointsSnoc(hash: Hash, item: Item, n: nat, slots: nat, b: nat)
    requires slots > 0 && n > 0
    ensures Points(hash, item, n, slots, b) <==>
      Points(hash, item, n - 1, slots, b) || Index(hash, item, n - 1, slots) == b
  {
  }

  lemma {:induction false} SetFirstBelow(hash: Hash, words: seq<nat>, item: Item, n: nat, numBits: nat)
    requires numBits > 0 && |words| == WordsFor(numBits) && AllWords(words)
    ensures AllWords(SetFirst(hash, words, item, n, numBits))
  {
    hide AllWords;
    if n > 0 {
      SetFirstBelow(hash, words, item, n - 1, numBits);
      SetBitBelow(SetFirst(hash, words, item, n - 1, numBits), Index(hash, item, n - 1, numBits));
    }
  }

  lemma EmptyHasNoBits(n: nat, b: nat)
    ensures !BitAt(seq(n, i => 0), b)
  {
    ZeroHasNoBits(b % 64);
  }

  lemma MergeUnites(f: Filter, g: Filter, b: nat)
    requires f.Valid() && g.Valid() && SameShape(f, g)
    ensures BitAt(Merge(f, g).words, b) <==> BitAt(f.words, b) || BitAt(g.words, b)
  {
    if b / 64 < |f.words| {
      BitOr(f.words[b / 64], g.words[b / 64], b % 64);
    }
  }

  lemma OrWord(a: nat, b: nat)
    requires a < WORD && b < WORD
    ensures Or(a, b) < WORD
  {
    WordIsShl();
    OrBelow(a, b, 64);
  }

  lemma OrWordsBelow(a: seq<nat>, b: seq<nat>)
    requires |a| == |b| && AllWords(a) && AllWords(b)
    ensures AllWords(OrWords(a, b))
  {
    forall i | 0 <= i < |a| ensures OrWords(a, b)[i] < WORD {
      OrWord(a[i], b[i]);
    }
  }

  // ---------- the byte form ----------

  function WordBytes(words: seq<nat>): (r: seq<Byte>)
    ensures |r| == 8 * |words|
  {
    if words == [] then [] else LeBytes(words[0], 8) + WordBytes(words[1..])
  }

  function ReadWords(data: seq<Byte>, n: nat): (r: seq<nat>)
    requires |data| >= 8 * n
    ensures |r| == n
  {
    if n == 0 then [] else [FromLe(data[..8])] + ReadWords(data[8..], n - 1)
  }

  /** Sizes and count are cut to 32 bits on the way out. */
  function ToBytes(f: Filter): seq<Byte> {
    LeBytes(f.numBits % HALF, 4) + LeBytes(f.numHashes % HALF, 4) + LeBytes(f.count % HALF, 4) + WordBytes(f.words)
  }

  function FromBytes(data: seq<Byte>): Option<Filter> {
    if |data| < 12 then None
    else
      var numBits := FromLe(data[0..4]);
      if |data| < 12 + 8 * WordsFor(numBits) then None
      else Some(Filter(ReadWords(data[12..], WordsFor(numBits)), numBits, FromLe(data[4..8]), FromLe(data[8..12])))
  }

  lemma {:induction false} WordsRoundTrip(words: seq<nat>, rest: seq<Byte>)
    requires AllWords(words)
    ensures ReadWords(WordBytes(words) + rest, |words|) == words
  {
    hide LeBytes, FromLe, Pow256;
    if words != [] {
      var data := WordBytes(words) + rest;
      assert data[..8] == LeBytes(words[0], 8);
      assert data[8..] == WordBytes(words[1..]) + rest;
      Pow256Is();
      LeRoundTrip(words[0], 8);
      WordsRoundTrip(words[1..], rest);
    }
  }

  lemma {:induction false} WordsInverse(data: seq<Byte>, n: nat)
    requires |data| >= 8 * n
    ensures WordBytes(ReadWords(data, n)) == data[..8 * n]
    ensures AllWords(ReadWords(data, n))
  {
    if n > 0 {
      var words := ReadWords(data, n);
      Pow256Is();
      LeInverse(data[..8]);
      WordsInverse(data[8..], n - 1);
      assert words[1..] == ReadWords(data[8..], n - 1);
      assert data[..8 * n] == data[..8] + data[8..][..8 * (n - 1)];
    }
  }

  /** The byte form of any filter of fewer than 2^32 bits reads back, bits intact, with the count cut to 32 bits. */
  lemma Reload(f: Filter, rest: seq<Byte>)
    requires f.Valid() && f.numBits < HALF
    ensures FromBytes(ToBytes(f) + rest) == Some(f.(count := f.count % HALF))
  {
    hide LeBytes, FromLe, WordBytes, ReadWords, AllWords, Pow256;
    var data := ToBytes(f) + rest;
    var words := WordBytes(f.words);
    assert data[0..4] == LeBytes(f.numBits, 4);
    assert data[4..8] == LeBytes(f.numHashes, 4);
    assert data[8..12] == LeBytes(f.count % HALF, 4);
    assert data[12..] == words + rest;
    Pow256Is();
    LeRoundTrip(f.numBits, 4);
    LeRoundTrip(f.numHashes, 4);
    LeRoundTrip(f.count % HALF, 4);
    WordsRoundTrip(f.words, rest);
  }

  /** The round trip is exact precisely when the bit count and the item count fit 32 bits. */
  lemma RoundTripExact(f: Filter)
    requires f.Valid()
    ensures FromBytes(ToBytes(f)) == Some(f) <==> f.numBits < HALF && f.count < HALF
  {
    if f.numBits < HALF {
      assert ToBytes(f) + [] == ToBytes(f);
      Reload(f, []);
    } else {
      Pow256Is();
      LeInverse(ToBytes(f)[0..4]);
    }
  }

  /** A filter of 2^32 bits comes back as one of none: its bit count is written as 0. */
  lemma HugeFilterIsLost(numHashes: nat)
    requires numHashes < HALF
    ensures Empty(HALF, numHashes).Valid() &&
      FromBytes(ToBytes(Empty(HALF, numHashes))) == Some(Filter([], 0, numHashes, 0))
  {
    hide LeBytes, FromLe, WordBytes, Pow256;
    var f := Empty(HALF, numHashes);
    var data := ToBytes(f);
    assert data[0..4] == LeBytes(0, 4) && data[4..8] == LeBytes(numHashes, 4) && data[8..12] == LeBytes(0, 4);
    Pow256Is();
    LeRoundTrip(0, 4);
    LeRoundTrip(numHashes, 4);
  }

  /**
   * The layout: three 32-bit numbers, the bit count, the hash count and the item count, and then
   * the words, eight bytes each.
   */
  lemma Layout(f: Filter, i: nat)
    requires f.Valid() && i < |f.words|
    ensures var data := ToBytes(f);
            && |data| == 12 + 8 * |f.words|
            && FromLe(data[0..4]) == f.numBits % 0x1_0000_0000
            && FromLe(data[4..8]) == f.numHashes && FromLe(data[8..12]) == f.count % 0x1_0000_0000
            && FromLe(data[12 + 8 * i..12 + 8 * i + 8]) == f.words[i]
  {
    hide LeBytes, FromLe, WordBytes, Pow256;
    var data := ToBytes(f);
    assert data[0..4] == LeBytes(f.numBits % HALF, 4);
    assert data[4..8] == LeBytes(f.numHashes, 4);
    assert data[8..12] == LeBytes(f.count % HALF, 4);
    WordAt(f.words, i);
    assert data[12 + 8 * i..12 + 8 * i + 8] == WordBytes(f.words)[8 * i..8 * i + 8];
    Pow256Is();
    LeRoundTrip(f.numBits % HALF, 4);
    LeRoundTrip(f.numHashes, 4);
    LeRoundTrip(f.count % HALF, 4);
    LeRoundTrip(f.words[i], 8);
  }

  lemma {:induction false} WordAt(words: seq<nat>, i: nat)
    requires i < |words|
    ensures WordBytes(words)[8 * i..8 * i + 8] == LeBytes(words[i], 8)
  {
    hide LeBytes;
    if i > 0 {
      WordAt(words[1..], i - 1);
      assert WordBytes(words)[8 * i..8 * i + 8] == WordBytes(words[1..])[8 * (i - 1)..8 * (i - 1) + 8];
    }
  }

  /** Whatever parses was written by a filter: the bytes read are exactly the byte form of the result. */
  lemma ParsedIsWritten(data: seq<Byte>)
    requires FromBytes(data).Some?
    ensures var f := FromBytes(data).value; ToBytes(f) == data[..12 + 8 * WordsFor(f.numBits)] && AllWords(f.words)
  {
    var f := FromBytes(data).value;
    var n := WordsFor(f.numBits);
    NumberInverse(data, 0);
    NumberInverse(data, 4);
    NumberInverse(data, 8);
    WordsInverse(data[12..], n);
    SplitHeader(data, 8 * n);
  }

  lemma NumberInverse(data: seq<Byte>, i: nat)
    requires i + 4 <= |data|
    ensures FromLe(data[i..i + 4]) < HALF && LeBytes(FromLe(data[i..i + 4]) % HALF, 4) == data[i..i + 4]
  {
    Pow256Is();
    LeInverse(data[i..i + 4]);
  }

  lemma SplitHeader(data: seq<Byte>, n: nat)
    requires 12 + n <= |data|
    ensures data[..12 + n] == data[0..4] + data[4..8] + data[8..12] + data[12..][..n]
  {
  }

  // ---------- whole histories ----------

  /** How a filter came about: every operation that makes or changes one. */
  datatype History =
    | New
    | Inserted(h: History, item: Item)
    | Cleared(h: History)
    | Merged(h: History, other: History)
    | Reloaded(h: History)

  /** Somewhere the filter was written out and read back. */
  predicate WrittenOut(h: History) {
    match h
    case New => false
    case Inserted(h, _) => WrittenOut(h)
    case Cleared(h) => WrittenOut(h)
    case Merged(h, other) => WrittenOut(h) || WrittenOut(other)
    case Reloaded(_) => true
  }

  /** The items a history leaves in the filter. */
  ghost function Items(h: History): set<Item> {
    match h
    case New => {}
    case Inserted(h, item) => Items(h) + {item}
    case Cleared(h) => {}
    case Merged(h, other) => Items(h) + Items(other)
    case Reloaded(h) => Items(h)
  }

  /** The filter a history produces; one that is written out must have fewer than 2^32 bits. */
  ghost function Replay(hash: Hash, h: History, numBits: nat, numHashes: nat): (f: Filter)
    requires 0 < numBits && numHashes < HALF && (WrittenOut(h) ==> numBits < HALF)
    ensures f.Valid() && f.numBits == numBits && f.numHashes == numHashes
  {
    match h
    case New => Empty(numBits, numHashes)
    case Inserted(h, item) => Insert(hash, Replay(hash, h, numBits, numHashes), item)
    case Cleared(h) => Clear(Replay(hash, h, numBits, numHashes))
    case Merged(h, other) => Merge(Replay(hash, h, numBits, numHashes), Replay(hash, other, numBits, numHashes))
    case Reloaded(h) => Reread(Replay(hash, h, numBits, numHashes))
  }

  /** Writing a filter out and reading it back. */
  function Reread(f: Filter): (r: Filter)
    requires f.Valid() && f.numBits < HALF
    ensures r == f.(count := f.count % HALF)
  {
    assert ToBytes(f) + [] == ToBytes(f);
    Reload(f, []);
    FromBytes(ToBytes(f)).value
  }

  ghost predicate SomePoints(hash: Hash, items: set<Item>, numBits: nat, numHashes: nat, b: nat)
    requires numBits > 0
  {
    exists item :: item in items && Points(hash, item, numHashes, numBits, b)
  }

  /** After any history a bit is set exactly when some item it holds points at it. */
  lemma {:induction false} BitsAreItems(hash: Hash, h: History, numBits: nat, numHashes: nat, b: nat)
    requires 0 < numBits && numHashes < HALF && (WrittenOut(h) ==> numBits < HALF)
    ensures BitAt(Replay(hash, h, numBits, numHashes).words, b) <==> SomePoints(hash, Items(h), numBits, numHashes, b)
  {
    match h
    case New =>
      EmptyHasNoBits(WordsFor(numBits), b);
    case Inserted(h0, item) =>
      BitsAreItems(hash, h0, numBits, numHashes, b);
      SetFirstSets(hash, Replay(hash, h0, numBits, numHashes).words, item, numHashes, numBits, b);
    case Cleared(h0) =>
      EmptyHasNoBits(WordsFor(numBits), b);
    case Merged(h0, other) =>
      BitsAreItems(hash, h0, numBits, numHashes, b);
      BitsAreItems(hash, other, numBits, numHashes, b);
      MergeUnites(Replay(hash, h0, numBits, numHashes), Replay(hash, other, numBits, numHashes), b);
    case Reloaded(h0) =>
      BitsAreItems(hash, h0, numBits, numHashes, b);
  }

  /**
   * How many items a history counts: insertions since the last clear, merges added up, cut to 32
   * bits by each reload.
   */
  function CountOf(h: History): nat {
    match h
    case New => 0
    case Inserted(h, _) => CountOf(h) + 1
    case Cleared(_) => 0
    case Merged(h, other) => CountOf(h) + CountOf(other)
    case Reloaded(h) => CountOf(h) % 0x1_0000_0000
  }

  lemma {:induction false} CountIsCounted(hash: Hash, h: History, numBits: nat, numHashes: nat)
    requires 0 < numBits && numHashes < HALF && (WrittenOut(h) ==> numBits < HALF)
    ensures Replay(hash, h, numBits, numHashes).count == CountOf(h)
  {
    match h
    case Inserted(h0, _) => CountIsCounted(hash, h0, numBits, numHashes);
    case Merged(h0, other) =>
      CountIsCounted(hash, h0, numBits, numHashes);
      CountIsCounted(hash, other, numBits, numHashes);
    case Reloaded(h0) => CountIsCounted(hash, h0, numBits, numHashes);
    case _ =>
  }

  /** An answer of "no" is always right, and "yes" means every slot of the item is taken by a held item. */
  lemma NoFalseNegatives(hash: Hash, h: History, numBits: nat, numHashes: nat, item: Item)
    requires 0 < numBits && numHashes < HALF && (WrittenOut(h) ==> numBits < HALF)
    ensures item in Items(h) ==> MayContain(hash, Replay(hash, h, numBits, numHashes), item)
    ensures MayContain(hash, Replay(hash, h, numBits, numHashes), item) <==>
      forall i: nat :: i < numHashes ==> SomePoints(hash, Items(h), numBits, numHashes, Index(hash, item, i, numBits))
  {
    forall i: nat | i < numHashes
      ensures BitAt(Replay(hash, h, numBits, numHashes).words, Index(hash, item, i, numBits))
        <==> SomePoints(hash, Items(h), numBits, numHashes, Index(hash, item, i, numBits))
    {
      BitsAreItems(hash, h, numBits, numHashes, Index(hash, item, i, numBits));
    }
    if item in Items(h) {
      forall i: nat | i < numHashes ensures SomePoints(hash, Items(h), numBits, numHashes, Index(hash, item, i,
        numBits)) {
        assert Points(hash, item, numHashes, numBits, Index(hash, item, i, numBits));
      }
    }
  }

  // ---------- the filter object ----------

  class BloomFilter {
    const hash: Hash
    const numBits: nat
    const numHashes: nat
    var bits: seq<nat>
    var count: nat

    function View(): Filter
      reads this
    {
      Filter(bits, numBits, numHashes, count)
    }

    predicate Valid()
      reads this
    {
      View().Valid()
    }

    constructor (hash: Hash, numBits: nat, numHashes: nat)
      requires numBits > 0 && numHashes < HALF
      ensures Valid() && View() == Empty(numBits, numHashes) && this.hash == hash
    {
      this.hash, this.numBits, this.numHashes := hash, numBits, numHashes;
      bits, count := seq(WordsFor(numBits), i => 0), 0;
    }

    method Add(item: Item)
      requires Valid()
      modifies this
      ensures Valid() && View() == Insert(hash, old(View()), item)
    {
      hide AllWords, Index, SetBit;
      for i := 0 to numHashes
        invariant |bits| == WordsFor(numBits) && count == old(count)
        invariant bits == SetFirst(hash, old(bits), item, i, numBits)
      {
        bits := SetBit(bits, Index(hash, item, i, numBits));
      }
      count := count + 1;
      SetFirstBelow(hash, old(bits), item, numHashes, numBits);
    }

    method Contains(item: Item) returns (r: bool)
      requires Valid()
      ensures r <==> MayContain(hash, View(), item)
    {
      for i := 0 to numHashes
        invariant forall j: nat :: j < i ==> BitAt(bits, Index(hash, item, j, numBits))
      {
        if !BitAt(bits, Index(hash, item, i, numBits)) {
          return false;
        }
      }
      r := true;
    }

    method Reset()
      requires Valid()
      modifies this
      ensures Valid() && View() == Clear(old(View()))
    {
      bits, count := seq(|bits|, i => 0), 0;
    }

    method Absorb(other: BloomFilter)
      requires Valid() && other.Valid() && SameShape(View(), other.View())
      modifies this
      ensures Valid() && View() == Merge(old(View()), old(other.View()))
    {
      hide AllWords;
      var theirs, added := other.bits, other.count;
      ghost var ours := bits;
      OrWordsBelow(ours, theirs);
      for i := 0 to |bits|
        invariant |bits| == |ours| && count == old(count)
        invariant forall j :: 0 <= j < i ==> bits[j] == Or(ours[j], theirs[j])
        invariant forall j :: i <= j < |bits| ==> bits[j] == ours[j]
      {
        bits := bits[i := Or(bits[i], theirs[i])];
      }
      assert bits == OrWords(ours, theirs);
      count := count + added;
    }

    method Serialize() returns (data: seq<Byte>)
      requires Valid()
      ensures data == ToBytes(View())
    {
      hide LeBytes, AllWords;
      data := LeBytes(numBits % HALF, 4) + LeBytes(numHashes % HALF, 4) + LeBytes(count % HALF, 4);
      ghost var header := data;
      for i := 0 to |bits|
        invariant data == header + WordBytes(bits[..i])
      {
        WordBytesSnoc(bits[..i], bits[i]);
        assert bits[..i + 1] == bits[..i] + [bits[i]];
        data := data + LeBytes(bits[i], 8);
      }
      assert bits[..|bits|] == bits;
    }
  }

  lemma {:induction false} WordBytesSnoc(words: seq<nat>, w: nat)
    ensures WordBytes(words + [w]) == WordBytes(words) + LeBytes(w, 8)
  {
    if words != [] {
      assert (words + [w])[1..] == words[1..] + [w];
      WordBytesSnoc(words[1..], w);
    }
  }

  lemma {:induction false} ReadWordsSnoc(data: seq<Byte>, n: nat)
    requires |data| >= 8 * (n + 1)
    ensures ReadWords(data, n + 1) == ReadWords(data, n) + [FromLe(data[8 * n..8 * n + 8])]
  {
    if n > 0 {
      ReadWordsSnoc(data[8..], n - 1);
      assert data[8..][8 * (n - 1)..8 * (n - 1) + 8] == data[8 * n..8 * n + 8];
    }
  }

  method Deserialize(data: seq<Byte>) returns (r: Option<Filter>)
    ensures r == FromBytes(data)
  {
    if |data| < 12 {
      return None;
    }
    var numBits, numHashes, count := FromLe(data[0..4]), FromLe(data[4..8]), FromLe(data[8..12]);
    var numWords := WordsFor(numBits);
    if |data| < 12 + 8 * numWords {
      return None;
    }
    var bits := [];
    for i := 0 to numWords
      invariant bits == ReadWords(data[12..], i)
    {
      var start := 12 + 8 * i;
      ReadWordsSnoc(data[12..], i);
      assert data[12..][8 * i..8 * i + 8] == data[start..start + 8];
      bits := bits + [FromLe(data[start..start + 8])];
    }
    r := Some(Filter(bits, numBits, numHashes, count));
  }
}
