/**
 * The tiered node store: src/storage/tiered.rs over the tiered tables of src/storage/local.rs.
 *
 * A node's payload can sit in five places: the local payload table, the legacy node table, the
 * cache and the bucket, with the index record saying whether the local or the bucket copy counts.
 * Everything about one node depends only on its own five entries, its `Cell`.
 */
module Tiered {
  import opened Wrappers
  import opened Values

  type Id = string

  datatype Location = Local | Cloud

  datatype IndexRecord = IndexRecord(nodeType: string, createdAt: int, updatedAt: int,
                                     location: Location, payloadSize: nat, propertyCount: nat)

  datatype Node = Node(nodeType: string, properties: Properties, createdAt: int, updatedAt: int)

  /** The settings the operations read, and the serialised size of a payload. */
  datatype Settings = Settings(sizeOf: Properties -> nat, writeThrough: bool, prefetch: bool,
                               localMaxBytes: nat, minCloudBytes: nat)

  datatype Tables = Tables(
    index: map<Id, IndexRecord>,
    payloads: map<Id, Properties>,
    legacy: map<Id, Node>,
    cache: map<Id, Properties>,
    bucket: map<Id, Properties>,
    attached: bool)

  const U32_MAX: nat := 0xffff_ffff
  const U16_MAX: nat := 0xffff

  function Min(a: nat, b: nat): nat { if a <= b then a else b }

  function Get<K, V>(m: map<K, V>, k: K): Option<V> { if k in m then Some(m[k]) else None }

  function RecordOf(env: Settings, n: Node, location: Location): IndexRecord {
    IndexRecord(n.nodeType, n.createdAt, n.updatedAt, location,
                Min(env.sizeOf(n.properties), U32_MAX), Min(|n.properties|, U16_MAX))
  }

  function ToNode(rec: IndexRecord, p: Properties): Node {
    Node(rec.nodeType, p, rec.createdAt, rec.updatedAt)
  }

  // ---------- one node's entries ----------

  datatype Cell = Cell(index: Option<IndexRecord>, payload: Option<Properties>, legacy: Option<Node>,
                       cache: Option<Properties>, bucket: Option<Properties>)

  function At(t: Tables, id: Id): Cell {
    Cell(Get(t.index, id), Get(t.payloads, id), Get(t.legacy, id), Get(t.cache, id), Get(t.bucket, id))
  }

  /** `t'` differs from `t` in the entries of `id` only, which are now `c`. */
  ghost predicate Edited(t: Tables, t': Tables, id: Id, c: Cell) {
    t'.attached == t.attached && At(t', id) == c && forall x :: x != id ==> At(t', x) == At(t, x)
  }

  // ---------- single reads and writes ----------

  /** `get_node_index`: the index record, or one made up from the legacy row. */
  function LookupIndex(env: Settings, t: Tables, id: Id): (r: Option<IndexRecord>)
    ensures r == if At(t, id).index.Some? then At(t, id).index
                 else if At(t, id).legacy.Some? then Some(RecordOf(env, At(t, id).legacy.value, Local))
                 else None
  {
    if id in t.index then Some(t.index[id])
    else if id in t.legacy then Some(RecordOf(env, t.legacy[id], Local))
    else None
  }

  /** `get_payload`: the payload row, or the legacy row's properties. */
  function LookupPayload(t: Tables, id: Id): (r: Option<Properties>)
    ensures r == if At(t, id).payload.Some? then At(t, id).payload
                 else if At(t, id).legacy.Some? then Some(At(t, id).legacy.value.properties)
                 else None
  {
    if id in t.payloads then Some(t.payloads[id])
    else if id in t.legacy then Some(t.legacy[id].properties)
    else None
  }

  function FetchCloud(t: Tables, id: Id, works: bool): (r: Result<Properties>)
    ensures r == if t.attached && works && At(t, id).bucket.Some? then Ok(At(t, id).bucket.value) else Err
  {
    if t.attached && works && id in t.bucket then Ok(t.bucket[id]) else Err
  }

  function PutIndex(t: Tables, id: Id, rec: IndexRecord): (t': Tables)
    ensures Edited(t, t', id, At(t, id).(index := Some(rec)))
  {
    t.(index := t.index[id := rec])
  }

  function PutPayload(t: Tables, id: Id, p: Properties): (t': Tables)
    ensures Edited(t, t', id, At(t, id).(payload := Some(p)))
  {
    t.(payloads := t.payloads[id := p])
  }

  function DropPayload(t: Tables, id: Id): (t': Tables)
    ensures Edited(t, t', id, At(t, id).(payload := None))
  {
    t.(payloads := t.payloads - {id})
  }

  function PutLegacy(t: Tables, id: Id, n: Node): (t': Tables)
    ensures Edited(t, t', id, At(t, id).(legacy := Some(n)))
  {
    t.(legacy := t.legacy[id := n])
  }

  /** The local part of a delete: index, payload and legacy rows in one transaction. */
  function DropRows(t: Tables, id: Id): (t': Tables)
    ensures Edited(t, t', id, At(t, id).(index := None, payload := None, legacy := None))
  {
    t.(index := t.index - {id}, payloads := t.payloads - {id}, legacy := t.legacy - {id})
  }

  function PutCache(t: Tables, id: Id, p: Properties): (t': Tables)
    ensures Edited(t, t', id, At(t, id).(cache := Some(p)))
  {
    t.(cache := t.cache[id := p])
  }

  function DropCache(t: Tables, id: Id): (t': Tables)
    ensures Edited(t, t', id, At(t, id).(cache := None))
  {
    t.(cache := t.cache - {id})
  }

  function PutBucket(t: Tables, id: Id, p: Properties): (t': Tables)
    ensures Edited(t, t', id, At(t, id).(bucket := Some(p)))
  {
    t.(bucket := t.bucket[id := p])
  }

  function DropBucket(t: Tables, id: Id): (t': Tables)
    ensures Edited(t, t', id, At(t, id).(bucket := None))
  {
    t.(bucket := t.bucket - {id})
  }

  function PutRows(t: Tables, id: Id, rec: IndexRecord, p: Properties): Tables {
    PutPayload(PutIndex(t, id, rec), id, p)
  }

  /** A bucket write that may fail, made only when a bucket is attached. */
  function WriteThrough(env: Settings, t: Tables, id: Id, p: Properties, works: bool): Tables {
    if env.writeThrough && t.attached && works then PutBucket(t, id, p) else t
  }

  // ---------- the operations ----------

  function InsertNode(env: Settings, t: Tables, id: Id, n: Node, works: bool): Tables {
    var t1 := PutRows(t, id, RecordOf(env, n, Local), n.properties);
    PutCache(WriteThrough(env, t1, id, n.properties, works), id, n.properties)
  }

  function PutAllRows(env: Settings, t: Tables, items: seq<(Id, Node)>): Tables
    decreases |items|
  {
    if items == [] then t
    else PutAllRows(env, PutRows(t, items[0].0, RecordOf(env, items[0].1, Local), items[0].1.properties), items[1..])
  }

  function CacheAll(t: Tables, items: seq<(Id, Node)>): Tables
    decreases |items|
  {
    if items == [] then t else CacheAll(PutCache(t, items[0].0, items[0].1.properties), items[1..])
  }

  function InsertBatch(env: Settings, t: Tables, items: seq<(Id, Node)>): Tables {
    CacheAll(PutAllRows(env, t, items), items)
  }

  /** `resolve_payload`: cache, then the copy the index record points to; a miss fills the cache. */
  function ResolvePayload(t: Tables, id: Id, rec: IndexRecord, works: bool): (Tables, Result<Properties>) {
    if At(t, id).cache.Some? then
      (t, Ok(At(t, id).cache.value))
    else
      var found := match rec.location
        case Local => (match LookupPayload(t, id) case Some(p) => Ok(p) case None => Err)
        case Cloud => FetchCloud(t, id, works);
      (if found.Ok? then PutCache(t, id, found.value) else t, found)
  }

  function GetNode(env: Settings, t: Tables, id: Id, works: bool): (Tables, Result<Option<Node>>) {
    match LookupIndex(env, t, id)
    case None => (t, Ok(None))
    case Some(rec) =>
      var (t1, p) := ResolvePayload(t, id, rec, works);
      (t1, if p.Ok? then Ok(Some(ToNode(rec, p.value))) else Err)
  }

  function Merge(p: Properties, delta: Value): Properties {
    if delta.Object? then p + delta.fields else p
  }

  function UpdateNode(env: Settings, t: Tables, id: Id, delta: Value, now: int, readWorks: bool, writeWorks: bool)
    : (Tables, Result<Node>)
  {
    match LookupIndex(env, t, id)
    case None => (t, Err)
    case Some(rec) =>
      var (t1, p) := ResolvePayload(t, id, rec, readWorks);
      if p.Err? then (t1, Err) else
      var merged := Merge(p.value, delta);
      var rec' := IndexRecord(rec.nodeType, rec.createdAt, now, Local,
                              Min(env.sizeOf(merged), U32_MAX), Min(|merged|, U16_MAX));
      var n := ToNode(rec', merged);
      (StoreUpdate(env, t1, id, rec', n, writeWorks), Ok(n))
  }

  /** The writes of an update: index, payload and legacy rows at once, then the cache, then the bucket. */
  function StoreUpdate(env: Settings, t: Tables, id: Id, rec: IndexRecord, n: Node, works: bool): Tables {
    var t1 := PutLegacy(PutRows(t, id, rec, n.properties), id, n);
    WriteThrough(env, PutCache(t1, id, n.properties), id, n.properties, works)
  }

  /** The writes of `delete_node`, in order: cache, bucket (which may fail), local rows. */
  function DeletePrefix(t: Tables, id: Id, works: bool, k: nat): Tables {
    var t1 := if k >= 1 then DropCache(t, id) else t;
    var t2 := if k >= 2 && t.attached && works then DropBucket(t1, id) else t1;
    if k >= 3 then DropRows(t2, id) else t2
  }

  function DeleteNode(t: Tables, id: Id, works: bool): Tables { DeletePrefix(t, id, works, 3) }

  /** The writes of `evict_to_cloud`, in order: bucket, index record, payload row, cache. */
  function EvictPrefix(env: Settings, t: Tables, id: Id, p: Properties, k: nat): Tables {
    var t1 := if k >= 1 then PutBucket(t, id, p) else t;
    var t2 := if k >= 2 && LookupIndex(env, t1, id).Some?
              then PutIndex(t1, id, LookupIndex(env, t1, id).value.(location := Cloud))
              else t1;
    var t3 := if k >= 3 then DropPayload(t2, id) else t2;
    if k >= 4 then PutCache(t3, id, p) else t3
  }

  function Evict(env: Settings, t: Tables, id: Id, works: bool): (Tables, bool) {
    if t.attached && works && LookupPayload(t, id).Some?
    then (EvictPrefix(env, t, id, LookupPayload(t, id).value, 4), true)
    else (t, false)
  }

  /** The writes of `promote_to_local`, in order: payload row, index record. */
  function PromotePrefix(env: Settings, t: Tables, id: Id, p: Properties, k: nat): Tables {
    var t1 := if k >= 1 then PutPayload(t, id, p) else t;
    if k >= 2 && LookupIndex(env, t1, id).Some?
    then PutIndex(t1, id, LookupIndex(env, t1, id).value.(location := Local))
    else t1
  }

  function Promote(env: Settings, t: Tables, id: Id, works: bool): (Tables, bool) {
    match FetchCloud(t, id, works)
    case Ok(p) => (PromotePrefix(env, t, id, p, 2), true)
    case Err => (t, false)
  }

  function PrefetchOne(t: Tables, id: Id): Tables {
    if At(t, id).cache.None? && LookupPayload(t, id).Some? then PutCache(t, id, LookupPayload(t, id).value) else t
  }

  function Prefetch(t: Tables, ids: seq<Id>): Tables
    decreases |ids|
  {
    if ids == [] then t else Prefetch(PrefetchOne(t, ids[0]), ids[1..])
  }

  /** `migrate_to_tiered`: index and payload rows for every legacy node, unless index rows exist. */
  function Migrate(env: Settings, t: Tables): Tables {
    if |t.index| > 0 then t
    else t.(index := map id | id in t.legacy :: RecordOf(env, t.legacy[id], Local),
            payloads := t.payloads + map id | id in t.legacy :: t.legacy[id].properties)
  }

  // ---------- what the entries mean ----------

  predicate Known(c: Cell) { c.index.Some? || c.legacy.Some? }

  predicate InCloud(c: Cell) { c.index.Some? && c.index.value.location.Cloud? }

  /** The copy that counts, ignoring the cache. */
  function Authoritative(c: Cell): Option<Properties> {
    if InCloud(c) then c.bucket
    else if c.payload.Some? then c.payload
    else if c.legacy.Some? then Some(c.legacy.value.properties)
    else None
  }

  /**
   * A known node is readable without the cache, every local copy agrees with the one that counts,
   * and the index record describes it.
   */
  ghost predicate CellOk(env: Settings, attached: bool, c: Cell) {
    Known(c) ==>
      && Authoritative(c).Some? && (InCloud(c) ==> attached)
      && (c.cache.Some? ==> c.cache == Authoritative(c))
      && (c.payload.Some? ==> c.payload == Authoritative(c))
      && (c.legacy.Some? ==> Some(c.legacy.value.properties) == Authoritative(c))
      && (c.index.Some? ==> Sized(env, c.index.value, Authoritative(c).value))
  }

  /** The record's size and property count are those of the payload, as far as 32 and 16 bits hold them. */
  ghost predicate Sized(env: Settings, rec: IndexRecord, p: Properties) {
    && (env.sizeOf(p) <= U32_MAX ==> rec.payloadSize == env.sizeOf(p))
    && (env.sizeOf(p) > U32_MAX ==> rec.payloadSize == U32_MAX)
    && (|p| <= U16_MAX ==> rec.propertyCount == |p|)
    && (|p| > U16_MAX ==> rec.propertyCount == U16_MAX)
  }

  /** What the entries say about the node, as a plain record. */
  ghost function Meaning(env: Settings, c: Cell): Option<Node> {
    if !Known(c) || Authoritative(c).None? then None
    else
      var rec := if c.index.Some? then c.index.value else RecordOf(env, c.legacy.value, Local);
      Some(ToNode(rec, Authoritative(c).value))
  }

  /** The five tables stand for the single map `m`. */
  ghost predicate Refines(env: Settings, t: Tables, m: map<Id, Node>) {
    forall id :: CellOk(env, t.attached, At(t, id)) && Meaning(env, At(t, id)) == Get(m, id)
  }

  lemma RefinesUse(env: Settings, t: Tables, m: map<Id, Node>, id: Id)
    requires Refines(env, t, m)
    ensures CellOk(env, t.attached, At(t, id)) && Meaning(env, At(t, id)) == Get(m, id)
  {
  }

  /** To follow a change of one node, look at that node only. */
  lemma RefinesAt(env: Settings, t: Tables, t': Tables, m: map<Id, Node>, m': map<Id, Node>, id: Id)
    requires Refines(env, t, m) && Edited(t, t', id, At(t', id))
    requires forall x :: x != id ==> Get(m', x) == Get(m, x)
    requires CellOk(env, t'.attached, At(t', id)) && Meaning(env, At(t', id)) == Get(m', id)
    ensures Refines(env, t', m')
  {
    forall x ensures CellOk(env, t'.attached, At(t', x)) && Meaning(env, At(t', x)) == Get(m', x) {
      assert CellOk(env, t.attached, At(t, x)) && Meaning(env, At(t, x)) == Get(m, x);
    }
  }

  // ---------- each operation refines the operation on the map ----------

  lemma InsertRefines(env: Settings, t: Tables, m: map<Id, Node>, id: Id, n: Node, works: bool)
    requires Refines(env, t, m) && id !in m
    ensures Refines(env, InsertNode(env, t, id, n, works), m[id := n])
  {
    hide Refines;
    hide At;
    RefinesUse(env, t, m, id);
    RefinesAt(env, t, InsertNode(env, t, id, n, works), m, m[id := n], id);
  }

  /** A read returns what the map holds; it can fail only for an uncached cloud payload with the bucket unreachable. */
  lemma GetRefines(env: Settings, t: Tables, m: map<Id, Node>, id: Id, works: bool)
    requires Refines(env, t, m)
    ensures var (t', r) := GetNode(env, t, id, works);
            && Refines(env, t', m)
            && (r.Ok? ==> r.value == Get(m, id))
            && (r.Err? <==> id in m && InCloud(At(t, id)) && At(t, id).cache.None? && !works)
  {
    var (t', r) := GetNode(env, t, id, works);
    hide Refines;
    hide At;
    RefinesUse(env, t, m, id);
    RefinesAt(env, t, t', m, m, id);
  }

  /** Resolving a known node's payload yields the payload the map holds and touches only the cache. */
  lemma ResolveRefines(env: Settings, t: Tables, m: map<Id, Node>, id: Id, works: bool)
    requires Refines(env, t, m) && id in m
    ensures LookupIndex(env, t, id).Some?
    ensures var rec := LookupIndex(env, t, id).value;
            var (t1, p) := ResolvePayload(t, id, rec, works);
            && m[id] == ToNode(rec, m[id].properties)
            && Refines(env, t1, m)
            && (p.Ok? ==> p.value == m[id].properties)
            && (p.Err? <==> InCloud(At(t, id)) && At(t, id).cache.None? && !works)
  {
    hide Refines;
    hide At;
    RefinesUse(env, t, m, id);
    var (t1, p) := ResolvePayload(t, id, LookupIndex(env, t, id).value, works);
    RefinesAt(env, t, t1, m, m, id);
  }

  lemma StoreUpdateRefines(env: Settings, t: Tables, m: map<Id, Node>, id: Id, rec: IndexRecord, n: Node, works: bool)
    requires Refines(env, t, m) && rec.location.Local? && n == ToNode(rec, n.properties)
    requires Sized(env, rec, n.properties)
    ensures Refines(env, StoreUpdate(env, t, id, rec, n, works), m[id := n])
  {
    hide Refines;
    hide At;
    RefinesAt(env, t, StoreUpdate(env, t, id, rec, n, works), m, m[id := n], id);
  }

  /**
   * `p'` is `p` with an object's fields laid over it: its keys take its values, all others keep
   * theirs, none is added or lost; anything but an object changes nothing.
   */
  ghost predicate LaidOver(p: Properties, delta: Value, p': Properties) {
    && (!delta.Object? ==> p' == p)
    && (delta.Object? ==>
          && (forall k :: k in p' <==> k in p || k in delta.fields)
          && (forall k :: k in delta.fields ==> p'[k] == delta.fields[k])
          && (forall k :: k in p && k !in delta.fields ==> p'[k] == p[k]))
  }

  lemma MergeLaysOver(p: Properties, delta: Value, p': Properties)
    ensures LaidOver(p, delta, p') <==> p' == Merge(p, delta)
  {
    if LaidOver(p, delta, p') {
      assert delta.Object? ==> p'.Keys == Merge(p, delta).Keys;
    }
  }

  /**
   * An update lays its fields over the current payload and stamps the time, whichever tier the
   * payload sits in; it fails exactly for an unknown or unreachable node, and then changes nothing.
   */
  lemma UpdateRefines(env: Settings, t: Tables, m: map<Id, Node>, id: Id, delta: Value, now: int, readWorks: bool,
                      writeWorks: bool)
    requires Refines(env, t, m)
    ensures var (t', r) := UpdateNode(env, t, id, delta, now, readWorks, writeWorks);
            && (r.Err? ==> Refines(env, t', m))
            && (r.Ok? ==> id in m && LaidOver(m[id].properties, delta, r.value.properties))
            && (r.Ok? ==> r.value == m[id].(properties := r.value.properties, updatedAt := now))
            && (r.Ok? ==> Refines(env, t', m[id := r.value]))
            && (r.Err? <==> id !in m || (InCloud(At(t, id)) && At(t, id).cache.None? && !readWorks))
  {
    hide Refines;
    hide At;
    hide ResolvePayload;
    hide StoreUpdate;
    RefinesUse(env, t, m, id);
    if id in m {
      ResolveRefines(env, t, m, id, readWorks);
      var rec := LookupIndex(env, t, id).value;
      var (t1, p) := ResolvePayload(t, id, rec, readWorks);
      if p.Ok? {
        var merged := Merge(p.value, delta);
        MergeLaysOver(p.value, delta, merged);
        var rec' := IndexRecord(rec.nodeType, rec.createdAt, now, Local,
                                Min(env.sizeOf(merged), U32_MAX), Min(|merged|, U16_MAX));
        StoreUpdateRefines(env, t1, m, id, rec', ToNode(rec', merged), writeWorks);
      }
    }
  }

  lemma DeleteRefines(env: Settings, t: Tables, m: map<Id, Node>, id: Id, works: bool)
    requires Refines(env, t, m)
    ensures Refines(env, DeleteNode(t, id, works), m - {id})
  {
    hide Refines;
    hide At;
    RefinesAt(env, t, DeleteNode(t, id, works), m, m - {id}, id);
  }

  /** A process that stops loses its cache: any set of cache entries may go at any time. */
  function LoseCache(t: Tables, lost: set<Id>): Tables { t.(cache := t.cache - lost) }

  lemma LossRefines(env: Settings, t: Tables, m: map<Id, Node>, lost: set<Id>)
    requires Refines(env, t, m)
    ensures Refines(env, LoseCache(t, lost), m)
  {
    var t' := LoseCache(t, lost);
    forall x ensures CellOk(env, t'.attached, At(t', x)) && Meaning(env, At(t', x)) == Get(m, x) {
      assert CellOk(env, t.attached, At(t, x)) && Meaning(env, At(t, x)) == Get(m, x);
    }
  }

  /** The entries of the evicted node after `k` writes. */
  lemma EvictPrefixAt(env: Settings, t: Tables, id: Id, p: Properties, k: nat)
    ensures var rec := LookupIndex(env, t, id);
            var c := At(t, id);
            Edited(t, EvictPrefix(env, t, id, p, k), id,
                   Cell(if k >= 2 && rec.Some? then Some(rec.value.(location := Cloud)) else c.index,
                        if k >= 3 then None else c.payload,
                        c.legacy,
                        if k >= 4 then Some(p) else c.cache,
                        if k >= 1 then Some(p) else c.bucket))
  {
    hide At;
  }

  /** Stopping `evict_to_cloud` after any of its writes leaves every node as it was. */
  lemma EvictPrefixRefines(env: Settings, t: Tables, m: map<Id, Node>, id: Id, k: nat)
    requires Refines(env, t, m) && t.attached && LookupPayload(t, id).Some?
    ensures Refines(env, EvictPrefix(env, t, id, LookupPayload(t, id).value, k), m)
  {
    hide Refines;
    hide At;
    hide EvictPrefix;
    RefinesUse(env, t, m, id);
    EvictPrefixAt(env, t, id, LookupPayload(t, id).value, k);
    RefinesAt(env, t, EvictPrefix(env, t, id, LookupPayload(t, id).value, k), m, m, id);
  }

  /** Stopping `promote_to_local` of a cloud payload after any of its writes leaves every node as it was. */
  lemma PromotePrefixRefines(env: Settings, t: Tables, m: map<Id, Node>, id: Id, k: nat)
    requires Refines(env, t, m) && InCloud(At(t, id)) && At(t, id).bucket.Some?
    ensures Refines(env, PromotePrefix(env, t, id, At(t, id).bucket.value, k), m)
  {
    hide Refines;
    hide At;
    RefinesUse(env, t, m, id);
    RefinesAt(env, t, PromotePrefix(env, t, id, At(t, id).bucket.value, k), m, m, id);
  }

  /** Crash safety: after any prefix of an eviction and loss of the cache, every read gives the last written payload. */
  lemma EvictCrashSafe(env: Settings, t: Tables, m: map<Id, Node>, id: Id, k: nat, x: Id)
    requires Refines(env, t, m) && t.attached && LookupPayload(t, id).Some?
    ensures var crashed := LoseCache(EvictPrefix(env, t, id, LookupPayload(t, id).value, k), t.cache.Keys + {id});
            GetNode(env, crashed, x, true).1 == Ok(Get(m, x))
  {
    EvictPrefixRefines(env, t, m, id, k);
    var t' := EvictPrefix(env, t, id, LookupPayload(t, id).value, k);
    LossRefines(env, t', m, t.cache.Keys + {id});
    GetRefines(env, LoseCache(t', t.cache.Keys + {id}), m, x, true);
  }

  lemma PromoteCrashSafe(env: Settings, t: Tables, m: map<Id, Node>, id: Id, k: nat, x: Id)
    requires Refines(env, t, m) && InCloud(At(t, id)) && At(t, id).bucket.Some?
    ensures var crashed := LoseCache(PromotePrefix(env, t, id, At(t, id).bucket.value, k), t.cache.Keys + {id});
            GetNode(env, crashed, x, true).1 == Ok(Get(m, x))
  {
    PromotePrefixRefines(env, t, m, id, k);
    var t' := PromotePrefix(env, t, id, At(t, id).bucket.value, k);
    LossRefines(env, t', m, t.cache.Keys + {id});
    GetRefines(env, LoseCache(t', t.cache.Keys + {id}), m, x, true);
  }

  /**
   * Promotion does not look at where the payload counts. On a coherent store it changes nothing
   * exactly when the bucket copy it installs is the current payload, or the id is unknown.
   */
  lemma PromoteExact(env: Settings, t: Tables, m: map<Id, Node>, id: Id, works: bool)
    requires Refines(env, t, m)
    ensures Refines(env, Promote(env, t, id, works).0, m) <==>
            FetchCloud(t, id, works).Err? || id !in m || At(t, id).bucket == Some(m[id].properties)
  {
    var t' := Promote(env, t, id, works).0;
    hide Refines;
    hide At;
    RefinesUse(env, t, m, id);
    if FetchCloud(t, id, works).Err? || id !in m || At(t, id).bucket == Some(m[id].properties) {
      RefinesAt(env, t, t', m, m, id);
    } else if Refines(env, t', m) {
      RefinesUse(env, t', m, id);
    }
  }

  /** A cloud-located payload is always safe to promote. */
  lemma PromoteCloudRefines(env: Settings, t: Tables, m: map<Id, Node>, id: Id, works: bool)
    requires Refines(env, t, m) && InCloud(At(t, id))
    ensures Refines(env, Promote(env, t, id, works).0, m)
  {
    hide Refines;
    hide At;
    RefinesUse(env, t, m, id);
    PromoteExact(env, t, m, id, works);
  }

  /**
   * Stopping `delete_node` between its bucket delete and its local delete leaves the node reading
   * as last written if and only if its payload counts locally; otherwise reading it fails.
   */
  lemma DeleteCrashExact(env: Settings, t: Tables, m: map<Id, Node>, id: Id)
    requires Refines(env, t, m) && id in m && t.attached
    ensures var r := GetNode(env, DeletePrefix(t, id, true, 2), id, true).1;
            (r == Ok(Some(m[id])) <==> !InCloud(At(t, id))) && (r == Err <==> InCloud(At(t, id)))
  {
    hide Refines;
    hide At;
    RefinesUse(env, t, m, id);
  }

  const ATTACHED: Tables := Tables(map[], map[], map[], map[], map[], true)

  /**
   * A run in which promotion brings an old payload back: the update's write-through put fails, the
   * bucket keeps the first payload, and promoting the local node installs it.
   */
  lemma PromoteRevertsUpdate(env: Settings, id: Id)
    requires env.writeThrough
    ensures var n := Node("t", map["x" := Int(1)], 0, 0);
            var t1 := InsertNode(env, ATTACHED, id, n, true);
            var (t2, updated) := UpdateNode(env, t1, id, Object(map["x" := Int(2)]), 1, true, false);
            var t3 := LoseCache(Promote(env, t2, id, true).0, {id});
            && updated.Ok? && updated.value.properties == map["x" := Int(2)]
            && GetNode(env, t3, id, true).1.Ok? && GetNode(env, t3, id, true).1.value.Some?
            && GetNode(env, t3, id, true).1.value.value.properties == map["x" := Int(1)]
  {
    var n := Node("t", map["x" := Int(1)], 0, 0);
    var t1 := InsertNode(env, ATTACHED, id, n, true);
    var t2 := UpdateNode(env, t1, id, Object(map["x" := Int(2)]), 1, true, false).0;
    assert Merge(n.properties, Object(map["x" := Int(2)])) == map["x" := Int(2)];
    assert At(t1, id).cache == Some(n.properties) && At(t1, id).bucket == Some(n.properties);
    assert At(t2, id).bucket == Some(n.properties);
  }

  /** An evicted node whose delete stops halfway is still indexed and cannot be read. */
  lemma HalfDeletedIsUnreadable(env: Settings, id: Id, n: Node)
    ensures var t1 := Evict(env, InsertNode(env, ATTACHED, id, n, true), id, true).0;
            var t2 := DeletePrefix(t1, id, true, 2);
            LookupIndex(env, t2, id).Some? && GetNode(env, t2, id, true).1 == Err
  {
    var t1 := InsertNode(env, ATTACHED, id, n, true);
    assert LookupPayload(t1, id) == Some(n.properties);
    EvictPrefixAt(env, t1, id, n.properties, 4);
    hide EvictPrefix;
  }

  lemma PrefetchOneRefines(env: Settings, t: Tables, m: map<Id, Node>, id: Id)
    requires Refines(env, t, m)
    ensures Refines(env, PrefetchOne(t, id), m)
  {
    hide Refines;
    hide At;
    RefinesUse(env, t, m, id);
    RefinesAt(env, t, PrefetchOne(t, id), m, m, id);
  }

  lemma {:induction false} PrefetchRefines(env: Settings, t: Tables, m: map<Id, Node>, ids: seq<Id>)
    requires Refines(env, t, m)
    ensures Refines(env, Prefetch(t, ids), m)
    decreases |ids|
  {
    if ids != [] {
      PrefetchOneRefines(env, t, m, ids[0]);
      PrefetchRefines(env, PrefetchOne(t, ids[0]), m, ids[1..]);
    }
  }

  lemma MigrateRefines(env: Settings, t: Tables, m: map<Id, Node>)
    requires Refines(env, t, m)
    ensures Refines(env, Migrate(env, t), m)
  {
    var t' := Migrate(env, t);
    if |t.index| == 0 {
      hide Migrate;
      hide At;
      forall x ensures CellOk(env, t'.attached, At(t', x)) && Meaning(env, At(t', x)) == Get(m, x) {
        MigrateOkAt(env, t, m, x);
      }
    }
  }

  lemma MigrateOkAt(env: Settings, t: Tables, m: map<Id, Node>, x: Id)
    requires Refines(env, t, m) && |t.index| == 0
    ensures var t' := Migrate(env, t); CellOk(env, t'.attached, At(t', x)) && Meaning(env, At(t', x)) == Get(m, x)
  {
    hide Refines;
    hide Migrate;
    hide At;
    RefinesUse(env, t, m, x);
    MigrateAt(env, t, x);
  }

  lemma MigrateAt(env: Settings, t: Tables, x: Id)
    requires |t.index| == 0
    ensures At(t, x).index.None? && Migrate(env, t).attached == t.attached
    ensures var c := At(t, x);
            At(Migrate(env, t), x) ==
            if c.legacy.None? then c
            else c.(index := Some(RecordOf(env, c.legacy.value, Local)), payload := Some(c.legacy.value.properties))
  {
    assert t.index == map[];
  }

  /** Attaching a bucket, whatever it already holds; it takes the place of one attached before. */
  function Attach(t: Tables, objects: map<Id, Properties>): Tables {
    t.(bucket := objects, attached := true)
  }

  /** The new bucket holds the payload of every node that counts in the cloud. */
  ghost predicate Carries(t: Tables, m: map<Id, Node>, objects: map<Id, Properties>) {
    forall id :: id in m && InCloud(At(t, id)) ==> Get(objects, id) == Some(m[id].properties)
  }

  /** Attaching a bucket changes no node if and only if it carries over every payload that counts in the cloud. */
  lemma AttachExact(env: Settings, t: Tables, m: map<Id, Node>, objects: map<Id, Properties>)
    requires Refines(env, t, m)
    ensures Refines(env, Attach(t, objects), m) <==> Carries(t, m, objects)
  {
    var t' := Attach(t, objects);
    forall x ensures At(t', x) == At(t, x).(bucket := Get(objects, x)) {}
    forall x
      ensures CellOk(env, t'.attached, At(t', x)) && Meaning(env, At(t', x)) == Get(m, x) <==>
        (x in m && InCloud(At(t, x)) ==> Get(objects, x) == Some(m[x].properties))
    {
      RefinesUse(env, t, m, x);
      AttachAt(env, t.attached, At(t, x), Get(objects, x));
    }
  }

  lemma AttachAt(env: Settings, attached: bool, c: Cell, copy: Option<Properties>)
    requires CellOk(env, attached, c)
    ensures CellOk(env, true, c.(bucket := copy)) && Meaning(env, c.(bucket := copy)) == Meaning(env, c) <==>
      (InCloud(c) ==> copy == c.bucket)
  {
  }

  /** Replacing the bucket by an empty one makes an evicted node unreadable once its cache entry is gone. */
  lemma EmptyBucketLosesEvicted(env: Settings, id: Id, n: Node)
    ensures var t1 := Evict(env, InsertNode(env, ATTACHED, id, n, true), id, true).0;
            GetNode(env, LoseCache(Attach(t1, map[]), {id}), id, true).1 == Err
  {
    var t1 := InsertNode(env, ATTACHED, id, n, true);
    assert LookupPayload(t1, id) == Some(n.properties);
    EvictPrefixAt(env, t1, id, n.properties, 4);
    hide EvictPrefix;
  }

  /** The first bucket of a store carries over everything there is. */
  lemma FirstBucketCarries(env: Settings, t: Tables, m: map<Id, Node>, objects: map<Id, Properties>)
    requires Refines(env, t, m) && !t.attached
    ensures Carries(t, m, objects)
  {
    forall id | id in m ensures !InCloud(At(t, id)) {
      RefinesUse(env, t, m, id);
    }
  }

  // ---------- where each operation leaves the copies ----------

  /**
   * After an insert the payload sits in the local table and the cache, and in the bucket if a write-
   * through put worked.
   */
  lemma InsertPlaces(env: Settings, t: Tables, id: Id, n: Node, works: bool)
    ensures var c, c' := At(t, id), At(InsertNode(env, t, id, n, works), id);
            && !InCloud(c') && c'.legacy == c.legacy
            && c'.payload == Some(n.properties) && c'.cache == Some(n.properties)
            && c'.bucket == if env.writeThrough && t.attached && works then Some(n.properties) else c.bucket
  {
    hide At;
  }

  /** After an update it also replaces the legacy row, and the node counts locally again. */
  lemma UpdatePlaces(env: Settings, t: Tables, id: Id, delta: Value, now: int, readWorks: bool, writeWorks: bool)
    ensures var (t', r) := UpdateNode(env, t, id, delta, now, readWorks, writeWorks);
            var c, c' := At(t, id), At(t', id);
            r.Ok? ==>
              && !InCloud(c') && c'.payload == Some(r.value.properties) && c'.cache == Some(r.value.properties)
              && c'.legacy == Some(r.value)
              && c'.bucket == if env.writeThrough && t.attached && writeWorks then Some(r.value.properties)
                              else c.bucket
  {
    hide At, Merge;
  }

  /** A delete leaves at most a bucket copy, and not even that when the bucket delete worked. */
  lemma DeleteClears(t: Tables, id: Id, works: bool)
    ensures At(DeleteNode(t, id, works), id) ==
            Cell(None, None, None, None, if t.attached && works then None else At(t, id).bucket)
  {
    hide At;
  }

  /** A read that succeeds leaves the payload in the cache and moves nothing else. */
  lemma ReadFills(env: Settings, t: Tables, id: Id, works: bool)
    ensures var (t', r) := GetNode(env, t, id, works);
            && (r.Ok? && r.value.Some? ==> At(t', id) == At(t, id).(cache := Some(r.value.value.properties)))
            && (r.Err? || r.value.None? ==> At(t', id) == At(t, id))
  {
    hide At;
  }

  /**
   * Promotion succeeds exactly when the bucket copy can be fetched; a known node then counts locally
   * with that copy.
   */
  lemma PromoteMoves(env: Settings, t: Tables, id: Id, works: bool)
    ensures var (t', ok) := Promote(env, t, id, works);
            && (ok <==> t.attached && works && At(t, id).bucket.Some?)
            && (ok && Known(At(t, id)) ==> !InCloud(At(t', id)) && At(t', id).payload == At(t, id).bucket)
            && (!ok ==> t' == t)
  {
    hide At;
  }

  /**
   * Prefetching caches every listed id that has a local payload, and touches nothing but the cache
   * of the listed ids.
   */
  lemma {:induction false} PrefetchFills(t: Tables, ids: seq<Id>, x: Id)
    ensures var c, c' := At(t, x), At(Prefetch(t, ids), x);
            && c' == c.(cache := c'.cache) && (x !in ids || c.cache.Some? ==> c' == c)
            && (x in ids && c.cache.None? ==> c'.cache == LookupPayload(t, x))
    decreases |ids|
  {
    hide At;
    if ids != [] {
      PrefetchFills(PrefetchOne(t, ids[0]), ids[1..], x);
      assert ids == [ids[0]] + ids[1..];
    }
  }

  /**
   * What eviction decides by: every index record gives the true size of the current payload, as far
   * as 32 bits hold it.
   */
  lemma RecordsAreTrue(env: Settings, t: Tables, m: map<Id, Node>, id: Id)
    requires Refines(env, t, m) && At(t, id).index.Some?
    ensures id in m && Sized(env, At(t, id).index.value, m[id].properties)
  {
    hide At;
    RefinesUse(env, t, m, id);
  }
}
