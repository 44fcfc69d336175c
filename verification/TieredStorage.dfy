/** `TieredStorage`: the five tables as fields, changed in place one write at a time. */
module TieredStorage {
  import opened Wrappers
  import opened Values
  import opened Tiered
  import opened TieredRuns

  /** `id` placed before the first candidate that was updated later. */
  function Place(index: map<Id, IndexRecord>, cands: seq<(Id, nat)>, id: Id): seq<(Id, nat)>
    requires id in index && forall i :: 0 <= i < |cands| ==> cands[i].0 in index
    decreases |cands|
  {
    if cands == [] || index[id].updatedAt < index[cands[0].0].updatedAt
    then [(id, index[id].payloadSize)] + cands
    else [cands[0]] + Place(index, cands[1..], id)
  }

  /** Oldest update first, each id once, with its recorded size. */
  ghost predicate OldestFirst(index: map<Id, IndexRecord>, cands: seq<(Id, nat)>) {
    && (forall i :: 0 <= i < |cands| ==> cands[i].0 in index && cands[i].1 == index[cands[i].0].payloadSize)
    && (forall i, j :: 0 <= i < j < |cands| ==>
          cands[i].0 != cands[j].0 && index[cands[i].0].updatedAt <= index[cands[j].0].updatedAt)
  }

  lemma {:induction false} PlaceKeepsOrder(index: map<Id, IndexRecord>, cands: seq<(Id, nat)>, id: Id)
    requires id in index && OldestFirst(index, cands) && !Among(cands, id)
    ensures OldestFirst(index, Place(index, cands, id))
    ensures forall x :: Among(Place(index, cands, id), x) <==> x == id || Among(cands, x)
    decreases |cands|
  {
    var placed := Place(index, cands, id);
    if cands == [] || index[id].updatedAt < index[cands[0].0].updatedAt {
      AmongCons((id, index[id].payloadSize), cands);
    } else {
      var rest := cands[1..];
      assert cands == [cands[0]] + rest;
      AmongCons(cands[0], rest);
      PlaceKeepsOrder(index, rest, id);
      var tail := Place(index, rest, id);
      AmongCons(cands[0], tail);
      forall j | 0 <= j < |tail|
        ensures cands[0].0 != tail[j].0 && index[cands[0].0].updatedAt <= index[tail[j].0].updatedAt
      {
        assert Among(tail, tail[j].0);
        if tail[j].0 != id {
          var i :| 0 <= i < |rest| && rest[i].0 == tail[j].0;
          assert rest[i] == cands[i + 1];
        }
      }
    }
  }

  lemma AmongCons(c: (Id, nat), rest: seq<(Id, nat)>)
    ensures forall x :: Among([c] + rest, x) <==> x == c.0 || Among(rest, x)
  {
    forall x ensures Among([c] + rest, x) <==> x == c.0 || Among(rest, x) {
      if Among(rest, x) {
        var i :| 0 <= i < |rest| && rest[i].0 == x;
        assert ([c] + rest)[i + 1].0 == x;
      }
      if x == c.0 { assert ([c] + rest)[0].0 == x; }
    }
  }

  predicate Evictable(env: Settings, index: map<Id, IndexRecord>, id: Id) {
    id in index && index[id].location.Local? && index[id].payloadSize >= env.minCloudBytes
  }

  /** The loop of the migration: an index record and a payload row for each legacy node. */
  method BuildRows(env: Settings, legacy: map<Id, Node>)
    returns (records: map<Id, IndexRecord>, rows: map<Id, Properties>, count: nat)
    ensures records == map id | id in legacy :: RecordOf(env, legacy[id], Local)
    ensures rows == map id | id in legacy :: legacy[id].properties
    ensures count == |legacy|
  {
    hide RecordOf;
    records, rows, count := map[], map[], 0;
    var todo := legacy.Keys;
    while todo != {}
      invariant todo <= legacy.Keys && records.Keys == rows.Keys == legacy.Keys - todo
      invariant count + |todo| == |legacy.Keys|
      invariant forall x :: x in records ==> records[x] == RecordOf(env, legacy[x], Local)
      invariant forall x :: x in rows ==> rows[x] == legacy[x].properties
      decreases |todo|
    {
      var id :| id in todo;
      records := records[id := RecordOf(env, legacy[id], Local)];
      rows := rows[id := legacy[id].properties];
      todo, count := todo - {id}, count + 1;
    }
    assert |legacy| == |legacy.Keys|;
  }

  /** The loop of the update: the new fields are inserted one by one. */
  method MergeInto(p: Properties, delta: Value) returns (merged: Properties)
    ensures LaidOver(p, delta, merged)
  {
    merged := p;
    if delta.Object? {
      var todo := delta.fields.Keys;
      while todo != {}
        invariant todo <= delta.fields.Keys
        invariant forall k :: k in merged <==> k in p || k in delta.fields.Keys - todo
        invariant forall k :: k in delta.fields.Keys - todo ==> merged[k] == delta.fields[k]
        invariant forall k :: k in p && k !in delta.fields.Keys - todo ==> merged[k] == p[k]
        decreases |todo|
      {
        var k :| k in todo;
        merged, todo := merged[k := delta.fields[k]], todo - {k};
      }
    }
  }

  class TieredStorage {
    const env: Settings
    var index: map<Id, IndexRecord>
    var payloads: map<Id, Properties>
    var legacy: map<Id, Node>
    var cache: map<Id, Properties>
    var bucket: map<Id, Properties>
    var attached: bool

    function View(): Tables
      reads this
    {
      Tables(index, payloads, legacy, cache, bucket, attached)
    }

    constructor (env: Settings, legacy: map<Id, Node>)
      ensures this.env == env && View() == Tables(map[], map[], legacy, map[], map[], false)
      ensures Refines(env, View(), legacy)
    {
      this.env, this.legacy := env, legacy;
      index, payloads, cache, bucket, attached := map[], map[], map[], map[], false;
      LegacyStart(env, legacy, map[], false);
    }

    method SetBucket(objects: map<Id, Properties>)
      modifies this
      ensures View() == Attach(old(View()), objects)
    {
      bucket, attached := objects, true;
    }

    method PutThrough(id: Id, p: Properties, works: bool)
      modifies this
      ensures View() == WriteThrough(env, old(View()), id, p, works)
    {
      if env.writeThrough && attached && works {
        bucket := bucket[id := p];
      }
    }

    method Insert(id: Id, n: Node, works: bool)
      modifies this
      ensures View() == InsertNode(env, old(View()), id, n, works)
    {
      index := index[id := RecordOf(env, n, Local)];
      payloads := payloads[id := n.properties];
      PutThrough(id, n.properties, works);
      cache := cache[id := n.properties];
    }

    /** Both loops of the batch: all rows first, then the cache. */
    method InsertMany(items: seq<(Id, Node)>)
      modifies this
      ensures View() == InsertBatch(env, old(View()), items)
    {
      hide RecordOf;
      ghost var start := View();
      for i := 0 to |items|
        invariant PutAllRows(env, View(), items[i..]) == PutAllRows(env, start, items)
      {
        assert items[i..][1..] == items[i + 1..];
        index := index[items[i].0 := RecordOf(env, items[i].1, Local)];
        payloads := payloads[items[i].0 := items[i].1.properties];
      }
      ghost var stored := View();
      for i := 0 to |items|
        invariant CacheAll(View(), items[i..]) == CacheAll(stored, items)
      {
        assert items[i..][1..] == items[i + 1..];
        cache := cache[items[i].0 := items[i].1.properties];
      }
    }

    method Resolve(id: Id, rec: IndexRecord, works: bool) returns (r: Result<Properties>)
      modifies this
      ensures (View(), r) == ResolvePayload(old(View()), id, rec, works)
    {
      if id in cache {
        return Ok(cache[id]);
      }
      match rec.location
      case Local =>
        var local := LookupPayload(View(), id);
        if local.None? { return Err; }
        cache := cache[id := local.value];
        r := Ok(local.value);
      case Cloud =>
        r := FetchCloud(View(), id, works);
        if r.Ok? { cache := cache[id := r.value]; }
    }

    method Get(id: Id, works: bool) returns (r: Result<Option<Node>>)
      modifies this
      ensures (View(), r) == GetNode(env, old(View()), id, works)
    {
      var rec := LookupIndex(env, View(), id);
      if rec.None? {
        return Ok(None);
      }
      var p := Resolve(id, rec.value, works);
      r := if p.Ok? then Ok(Some(ToNode(rec.value, p.value))) else Err;
    }

    method Update(id: Id, delta: Value, now: int, readWorks: bool, writeWorks: bool) returns (r: Result<Node>)
      modifies this
      ensures (View(), r) == UpdateNode(env, old(View()), id, delta, now, readWorks, writeWorks)
    {
      var rec := LookupIndex(env, View(), id);
      if rec.None? {
        return Err;
      }
      var p := Resolve(id, rec.value, readWorks);
      if p.Err? {
        return Err;
      }
      hide ResolvePayload;
      hide StoreUpdate;
      var merged := MergeInto(p.value, delta);
      MergeLaysOver(p.value, delta, merged);
      var rec' := IndexRecord(rec.value.nodeType, rec.value.createdAt, now, Local,
                              Min(env.sizeOf(merged), U32_MAX), Min(|merged|, U16_MAX));
      var n := ToNode(rec', merged);
      Store(id, rec', n, writeWorks);
      r := Ok(n);
    }

    method Store(id: Id, rec: IndexRecord, n: Node, works: bool)
      modifies this
      ensures View() == StoreUpdate(env, old(View()), id, rec, n, works)
    {
      index := index[id := rec];
      payloads := payloads[id := n.properties];
      legacy := legacy[id := n];
      cache := cache[id := n.properties];
      PutThrough(id, n.properties, works);
    }

    method Delete(id: Id, works: bool)
      modifies this
      ensures View() == DeleteNode(old(View()), id, works)
    {
      cache := cache - {id};
      if attached && works {
        bucket := bucket - {id};
      }
      index := index - {id};
      payloads := payloads - {id};
      legacy := legacy - {id};
    }

    method EvictToCloud(id: Id, works: bool) returns (ok: bool)
      modifies this
      ensures (View(), ok) == Evict(env, old(View()), id, works)
    {
      var payload := LookupPayload(View(), id);
      if !attached || payload.None? || !works {
        return false;
      }
      bucket := bucket[id := payload.value];
      var rec := LookupIndex(env, View(), id);
      if rec.Some? {
        index := index[id := rec.value.(location := Cloud)];
      }
      payloads := payloads - {id};
      cache := cache[id := payload.value];
      ok := true;
    }

    method PromoteToLocal(id: Id, works: bool) returns (ok: bool)
      modifies this
      ensures (View(), ok) == Promote(env, old(View()), id, works)
    {
      var payload := FetchCloud(View(), id, works);
      if payload.Err? {
        return false;
      }
      payloads := payloads[id := payload.value];
      var rec := LookupIndex(env, View(), id);
      if rec.Some? {
        index := index[id := rec.value.(location := Local)];
      }
      ok := true;
    }

    method PrefetchNeighbors(ids: seq<Id>)
      modifies this
      ensures View() == if env.prefetch then Prefetch(old(View()), ids) else old(View())
    {
      if !env.prefetch {
        return;
      }
      ghost var start := View();
      for i := 0 to |ids|
        invariant Prefetch(View(), ids[i..]) == Prefetch(start, ids)
      {
        if ids[i] !in cache {
          var payload := LookupPayload(View(), ids[i]);
          if payload.Some? {
            cache := cache[ids[i] := payload.value];
          }
        }
      }
    }

    /** Rows for every legacy node, unless the database already has index rows. */
    method MigrateToTiered() returns (count: nat)
      modifies this
      ensures View() == Migrate(env, old(View()))
      ensures count == if |old(index)| > 0 then 0 else |old(legacy)|
    {
      if |index| > 0 {
        return 0;
      }
      var records, rows, n := BuildRows(env, legacy);
      index, payloads := records, payloads + rows;
      count := n;
    }

    /** Exactly the local payloads of at least the minimum size, oldest update first. */
    method EvictionCandidates() returns (cands: seq<(Id, nat)>)
      ensures OldestFirst(index, cands)
      ensures forall x :: Among(cands, x) <==>
        x in index && index[x].location.Local? && index[x].payloadSize >= env.minCloudBytes
    {
      cands := [];
      var todo := index.Keys;
      while todo != {}
        invariant todo <= index.Keys && OldestFirst(index, cands)
        invariant forall x :: Among(cands, x) <==> x !in todo && Evictable(env, index, x)
        decreases |todo|
      {
        var id :| id in todo;
        todo := todo - {id};
        if index[id].location.Local? && index[id].payloadSize >= env.minCloudBytes {
          PlaceKeepsOrder(index, cands, id);
          cands := Place(index, cands, id);
        }
      }
    }

    /** Evict the oldest payloads until the estimate is down to four fifths of the limit. */
    method RunEviction(totalBytes: nat, works: Id -> bool) returns (evicted: nat, ghost cands: seq<(Id, nat)>)
      modifies this
      ensures OldestFirst(old(index), cands) && forall x :: Among(cands, x) <==> Evictable(env, old(index), x)
      ensures if !old(attached) || totalBytes <= env.localMaxBytes
              then evicted == 0 && View() == old(View())
              else var (t, n, _) := EvictLoop(env, old(View()), cands, works, totalBytes, env.localMaxBytes * 80 / 100);
                   View() == t && evicted == n
    {
      evicted := 0;
      var list := EvictionCandidates();
      cands := list;
      if !attached || totalBytes <= env.localMaxBytes {
        return;
      }
      var target: nat, current: nat := env.localMaxBytes * 80 / 100, totalBytes;
      var i := 0;
      ghost var start := View();
      while i < |list| && current > target
        invariant 0 <= i <= |list|
        invariant var (t, n, _) := EvictLoop(env, View(), list[i..], works, current, target);
                  var (t0, n0, _) := EvictLoop(env, start, list, works, totalBytes, target);
                  t == t0 && evicted + n == n0
      {
        var (id, size) := list[i];
        assert list[i..][1..] == list[i + 1..];
        var ok := EvictToCloud(id, works(id));
        if ok {
          evicted := evicted + 1;
          current := if size <= current then current - size else 0;
        }
        i := i + 1;
      }
    }
  }
}
