/** Whole runs of the tiered store, its batch insert and its eviction pass. */
module TieredRuns {
  import opened Wrappers
  import opened Values
  import opened Tiered

  // ---------- batch insert ----------

  ghost predicate DistinctIds(items: seq<(Id, Node)>) {
    forall i, j :: 0 <= i < j < |items| ==> items[i].0 != items[j].0
  }

  function Find(items: seq<(Id, Node)>, x: Id): Option<Node>
    decreases |items|
  {
    if items == [] then None else if items[0].0 == x then Some(items[0].1) else Find(items[1..], x)
  }

  function AddAll(m: map<Id, Node>, items: seq<(Id, Node)>): map<Id, Node>
    decreases |items|
  {
    if items == [] then m else AddAll(m[items[0].0 := items[0].1], items[1..])
  }

  lemma {:induction false} FindNone(items: seq<(Id, Node)>, x: Id)
    requires forall i :: 0 <= i < |items| ==> items[i].0 != x
    ensures Find(items, x).None?
    decreases |items|
  {
    if items != [] { FindNone(items[1..], x); }
  }

  lemma {:induction false} AddAllAt(m: map<Id, Node>, items: seq<(Id, Node)>, x: Id)
    requires DistinctIds(items)
    ensures Get(AddAll(m, items), x) == if Find(items, x).Some? then Find(items, x) else Get(m, x)
    decreases |items|
  {
    if items != [] {
      AddAllAt(m[items[0].0 := items[0].1], items[1..], x);
      if items[0].0 == x { FindNone(items[1..], x); }
    }
  }

  lemma {:induction false} PutAllRowsAt(env: Settings, t: Tables, items: seq<(Id, Node)>, x: Id)
    requires DistinctIds(items)
    ensures var n, c := Find(items, x), At(t, x);
            && PutAllRows(env, t, items).attached == t.attached
            && At(PutAllRows(env, t, items), x) ==
               if n.None? then c
               else c.(index := Some(RecordOf(env, n.value, Local)), payload := Some(n.value.properties))
    decreases |items|
  {
    hide At;
    if items != [] {
      var (id, n) := items[0];
      PutAllRowsAt(env, PutRows(t, id, RecordOf(env, n, Local), n.properties), items[1..], x);
      if id == x { FindNone(items[1..], x); }
    }
  }

  lemma {:induction false} CacheAllAt(t: Tables, items: seq<(Id, Node)>, x: Id)
    requires DistinctIds(items)
    ensures var n, c := Find(items, x), At(t, x);
            && CacheAll(t, items).attached == t.attached
            && At(CacheAll(t, items), x) == if n.None? then c else c.(cache := Some(n.value.properties))
    decreases |items|
  {
    hide At;
    if items != [] {
      CacheAllAt(PutCache(t, items[0].0, items[0].1.properties), items[1..], x);
      if items[0].0 == x { FindNone(items[1..], x); }
    }
  }

  lemma BatchOkAt(env: Settings, t: Tables, m: map<Id, Node>, items: seq<(Id, Node)>, x: Id)
    requires Refines(env, t, m) && DistinctIds(items) && (Find(items, x).Some? ==> x !in m)
    ensures var t' := InsertBatch(env, t, items);
            && CellOk(env, t'.attached, At(t', x)) && t'.attached == t.attached
            && Meaning(env, At(t', x)) == Get(AddAll(m, items), x)
  {
    RefinesUse(env, t, m, x);
    PutAllRowsAt(env, t, items, x);
    CacheAllAt(PutAllRows(env, t, items), items, x);
    AddAllAt(m, items, x);
    hide At;
    hide Refines;
    hide PutAllRows;
    hide CacheAll;
    hide AddAll;
    hide Find;
  }

  lemma {:induction false} FindMember(items: seq<(Id, Node)>, x: Id)
    requires Find(items, x).Some?
    ensures exists i :: 0 <= i < |items| && items[i].0 == x
    decreases |items|
  {
    if items[0].0 != x {
      FindMember(items[1..], x);
      var i :| 0 <= i < |items[1..]| && items[1..][i].0 == x;
      assert items[i + 1].0 == x;
    }
  }

  lemma {:induction false} FindAt(items: seq<(Id, Node)>, i: nat)
    requires DistinctIds(items) && i < |items|
    ensures Find(items, items[i].0) == Some(items[i].1)
    decreases |items|
  {
    if i > 0 {
      assert items[0].0 != items[i].0;
      FindAt(items[1..], i - 1);
    }
  }

  lemma BatchRefines(env: Settings, t: Tables, m: map<Id, Node>, items: seq<(Id, Node)>)
    requires Refines(env, t, m) && DistinctIds(items)
    requires forall i :: 0 <= i < |items| ==> items[i].0 !in m
    ensures Refines(env, InsertBatch(env, t, items), AddAll(m, items))
    ensures forall i :: 0 <= i < |items| ==> Get(AddAll(m, items), items[i].0) == Some(items[i].1)
    ensures forall x :: x in m ==> Get(AddAll(m, items), x) == Some(m[x])
  {
    forall i | 0 <= i < |items| ensures Get(AddAll(m, items), items[i].0) == Some(items[i].1) {
      AddAllAt(m, items, items[i].0);
      FindAt(items, i);
    }
    forall x | x in m ensures Get(AddAll(m, items), x) == Some(m[x]) {
      AddAllAt(m, items, x);
      FindNone(items, x);
    }
    var t', m' := InsertBatch(env, t, items), AddAll(m, items);
    hide InsertBatch;
    hide AddAll;
    hide At;
    hide CellOk;
    hide Meaning;
    forall x ensures CellOk(env, t'.attached, At(t', x)) && Meaning(env, At(t', x)) == Get(m', x) {
      if Find(items, x).Some? { FindMember(items, x); }
      BatchOkAt(env, t, m, items, x);
    }
  }

  // ---------- the eviction pass ----------

  /** The loop of `run_eviction`: the final tables, the number evicted and the number tried. */
  function EvictLoop(env: Settings, t: Tables, cands: seq<(Id, nat)>, works: Id -> bool, current: nat, target: nat)
    : (Tables, nat, nat)
    decreases |cands|
  {
    if cands == [] || current <= target then (t, 0, 0)
    else
      var (id, size) := cands[0];
      var (t1, ok) := Evict(env, t, id, works(id));
      var current' := if !ok then current else if size <= current then current - size else 0;
      var (t2, evicted, tried) := EvictLoop(env, t1, cands[1..], works, current', target);
      (t2, evicted + (if ok then 1 else 0), tried + 1)
  }

  lemma EvictRefines(env: Settings, t: Tables, m: map<Id, Node>, id: Id, works: bool)
    requires Refines(env, t, m)
    ensures Refines(env, Evict(env, t, id, works).0, m)
  {
    if t.attached && LookupPayload(t, id).Some? {
      EvictPrefixRefines(env, t, m, id, 4);
    }
  }

  lemma {:induction false} EvictLoopRefines(env: Settings, t: Tables, m: map<Id, Node>, cands: seq<(Id, nat)>,
                                            works: Id -> bool, current: nat, target: nat)
    requires Refines(env, t, m)
    ensures Refines(env, EvictLoop(env, t, cands, works, current, target).0, m)
    decreases |cands|
  {
    hide Refines;
    hide Evict;
    if cands != [] && current > target {
      var (id, size) := cands[0];
      EvictRefines(env, t, m, id, works(id));
      var (t1, ok) := Evict(env, t, id, works(id));
      var current' := if !ok then current else if size <= current then current - size else 0;
      EvictLoopRefines(env, t1, m, cands[1..], works, current', target);
    }
  }

  /** The candidates whose upload succeeds. */
  function Uploaded(cands: seq<(Id, nat)>, works: Id -> bool): seq<(Id, nat)> {
    if cands == [] then [] else (if works(cands[0].0) then [cands[0]] else []) + Uploaded(cands[1..], works)
  }

  function TotalSize(cands: seq<(Id, nat)>): nat {
    if cands == [] then 0 else cands[0].1 + TotalSize(cands[1..])
  }

  /** A local candidate of a coherent store moves to the cloud exactly when its upload works; nothing else moves. */
  lemma EvictMoves(env: Settings, t: Tables, m: map<Id, Node>, id: Id, works: bool)
    requires Refines(env, t, m) && t.attached && id in m && !InCloud(At(t, id))
    ensures var (t', ok) := Evict(env, t, id, works);
            && ok == works && t'.attached && (InCloud(At(t', id)) <==> works)
            && forall x :: x != id ==> At(t', x) == At(t, x)
  {
    hide Refines;
    hide At;
    RefinesUse(env, t, m, id);
    if LookupPayload(t, id).Some? {
      EvictPrefixAt(env, t, id, LookupPayload(t, id).value, 4);
    }
    hide EvictPrefix;
  }

  ghost predicate Candidates(t: Tables, m: map<Id, Node>, cands: seq<(Id, nat)>) {
    && (forall i :: 0 <= i < |cands| ==> cands[i].0 in m && !InCloud(At(t, cands[i].0)))
    && (forall i, j :: 0 <= i < j < |cands| ==> cands[i].0 != cands[j].0)
  }

  lemma CandidateFront(t: Tables, m: map<Id, Node>, cands: seq<(Id, nat)>)
    requires Candidates(t, m, cands)
    ensures cands != [] ==> cands[0].0 in m && !InCloud(At(t, cands[0].0))
  {
  }

  lemma CandidatesLeft(t: Tables, t1: Tables, m: map<Id, Node>, cands: seq<(Id, nat)>)
    requires cands != [] && Candidates(t, m, cands)
    requires forall x :: x != cands[0].0 ==> At(t1, x) == At(t, x)
    ensures Candidates(t1, m, cands[1..])
  {
    hide At;
    hide InCloud;
    var rest := cands[1..];
    forall i | 0 <= i < |rest| ensures rest[i].0 in m && !InCloud(At(t1, rest[i].0)) {
      assert rest[i] == cands[i + 1];
    }
  }

  ghost predicate Among(cands: seq<(Id, nat)>, x: Id) {
    exists i :: 0 <= i < |cands| && cands[i].0 == x
  }

  /** What a pass over `cands` from `t` to `t'` has done, having tried `tried` of them. */
  ghost predicate PassResult(t: Tables, t': Tables, cands: seq<(Id, nat)>, works: Id -> bool,
                             current: nat, target: nat, evicted: nat, tried: nat) {
    && tried <= |cands|
    && evicted == |Uploaded(cands[..tried], works)|
    && (tried < |cands| ==> current - TotalSize(Uploaded(cands[..tried], works)) <= target)
    && (forall j :: 0 <= j < tried ==> current - TotalSize(Uploaded(cands[..j], works)) > target)
    && (forall x :: InCloud(At(t', x)) <==> InCloud(At(t, x)) || (Among(cands[..tried], x) && works(x)))
  }

  lemma PassNothing(t: Tables, cands: seq<(Id, nat)>, works: Id -> bool, current: nat, target: nat)
    requires cands == [] || current <= target
    ensures PassResult(t, t, cands, works, current, target, 0, 0)
  {
    hide At;
    hide InCloud;
    assert cands[..0] == [];
  }

  lemma PassStep(t: Tables, t1: Tables, t': Tables, cands: seq<(Id, nat)>, works: Id -> bool,
                 current: nat, current': nat, target: nat, evicted: nat, tried: nat)
    requires cands != [] && PassResult(t1, t', cands[1..], works, current', target, evicted, tried)
    requires current > target
    requires current' == if !works(cands[0].0) then current
                         else if cands[0].1 <= current then current - cands[0].1
                         else 0
    requires !InCloud(At(t, cands[0].0)) && (InCloud(At(t1, cands[0].0)) <==> works(cands[0].0))
    requires forall x :: x != cands[0].0 ==> At(t1, x) == At(t, x)
    ensures PassResult(t, t', cands, works, current, target, evicted + (if works(cands[0].0) then 1 else 0), tried + 1)
  {
    hide At;
    hide InCloud;
    EvictLoopStep(cands, works, tried + 1);
    forall j | 0 <= j < tried + 1 ensures current - TotalSize(Uploaded(cands[..j], works)) > target {
      if j == 0 {
        assert cands[..0] == [];
      } else {
        EvictLoopStep(cands, works, j);
      }
    }
    hide Uploaded;
    hide TotalSize;
    hide Among;
    forall x ensures InCloud(At(t', x)) <==> InCloud(At(t, x)) || (Among(cands[..tried + 1], x) && works(x)) {
      AmongTail(cands, tried + 1, x);
    }
  }

  /**
   * The pass tries the candidates in order and stops exactly when the sizes it has moved bring
   * the estimate down to the target, or none are left: it counts and moves exactly those of the
   * tried prefix whose upload works.
   */
  lemma {:induction false} EvictLoopExact(env: Settings, t: Tables, m: map<Id, Node>, cands: seq<(Id, nat)>,
                                          works: Id -> bool, current: nat, target: nat)
    requires Refines(env, t, m) && t.attached && Candidates(t, m, cands)
    ensures var (t', evicted, tried) := EvictLoop(env, t, cands, works, current, target);
            PassResult(t, t', cands, works, current, target, evicted, tried)
    decreases |cands|
  {
    hide At;
    hide Refines;
    hide Evict;
    hide PassResult;
    hide InCloud;
    hide Candidates;
    CandidateFront(t, m, cands);
    if cands == [] || current <= target {
      PassNothing(t, cands, works, current, target);
    } else {
      var (id, size) := cands[0];
      EvictMoves(env, t, m, id, works(id));
      EvictRefines(env, t, m, id, works(id));
      var (t1, ok) := Evict(env, t, id, works(id));
      var rest := cands[1..];
      CandidatesLeft(t, t1, m, cands);
      var current' := if !ok then current else if size <= current then current - size else 0;
      EvictLoopExact(env, t1, m, rest, works, current', target);
      var (t', evicted, tried) := EvictLoop(env, t1, rest, works, current', target);
      PassStep(t, t1, t', cands, works, current, current', target, evicted, tried);
    }
  }

  lemma AmongTail(cands: seq<(Id, nat)>, k: nat, x: Id)
    requires 0 < k <= |cands|
    ensures Among(cands[..k], x) <==> x == cands[0].0 || Among(cands[1..][..k - 1], x)
  {
    var a, b := cands[..k], cands[1..][..k - 1];
    if Among(b, x) {
      var i :| 0 <= i < |b| && b[i].0 == x;
      assert a[i + 1].0 == x;
    }
    if Among(a, x) && x != cands[0].0 {
      var i :| 0 <= i < |a| && a[i].0 == x;
      assert b[i - 1].0 == x;
    }
    if x == cands[0].0 { assert a[0].0 == x; }
  }

  lemma EvictLoopStep(cands: seq<(Id, nat)>, works: Id -> bool, k: nat)
    requires 0 < k <= |cands|
    ensures var rest := Uploaded(cands[1..][..k - 1], works);
            && Uploaded(cands[..k], works) == (if works(cands[0].0) then [cands[0]] else []) + rest
            && TotalSize(Uploaded(cands[..k], works)) == (if works(cands[0].0) then cands[0].1 else 0) + TotalSize(rest)
  {
    assert cands[..k][1..] == cands[1..][..k - 1];
    var rest := Uploaded(cands[1..][..k - 1], works);
    assert ([cands[0]] + rest)[1..] == rest && [] + rest == rest;
  }

  // ---------- runs ----------

  datatype Op =
    | Insert(id: Id, node: Node, works: bool)
    | Batch(items: seq<(Id, Node)>)
    | Read(id: Id, works: bool)
    | Update(id: Id, delta: Value, now: int, readWorks: bool, writeWorks: bool)
    | Delete(id: Id, works: bool)
    | EvictOne(id: Id, works: bool)
    | PromoteOne(id: Id, works: bool)
    | PrefetchAll(ids: seq<Id>)
    | EvictMany(cands: seq<(Id, nat)>, uploads: Id -> bool, current: nat, target: nat)
    | MigrateAll
    | CacheLoss(lost: set<Id>)
    | AttachBucket(objects: map<Id, Properties>)

  function Apply(env: Settings, t: Tables, op: Op): Tables {
    match op
    case Insert(id, n, works) => InsertNode(env, t, id, n, works)
    case Batch(items) => InsertBatch(env, t, items)
    case Read(id, works) => GetNode(env, t, id, works).0
    case Update(id, delta, now, rw, ww) => UpdateNode(env, t, id, delta, now, rw, ww).0
    case Delete(id, works) => DeleteNode(t, id, works)
    case EvictOne(id, works) => Evict(env, t, id, works).0
    case PromoteOne(id, works) => Promote(env, t, id, works).0
    case PrefetchAll(ids) => Prefetch(t, ids)
    case EvictMany(cands, uploads, current, target) => EvictLoop(env, t, cands, uploads, current, target).0
    case MigrateAll => Migrate(env, t)
    case CacheLoss(lost) => LoseCache(t, lost)
    case AttachBucket(objects) => Attach(t, objects)
  }

  /** Key by key: an object's fields where it has them, the old properties elsewhere. */
  function Overlay(p: Properties, delta: Value): Properties {
    if !delta.Object? then p
    else map k | k in p.Keys + delta.fields.Keys :: if k in delta.fields then delta.fields[k] else p[k]
  }

  lemma OverlayIs(p: Properties, delta: Value, p': Properties)
    requires LaidOver(p, delta, p')
    ensures p' == Overlay(p, delta)
  {
    assert delta.Object? ==> p'.Keys == Overlay(p, delta).Keys;
  }

  lemma UpdateOnMap(env: Settings, t: Tables, m: map<Id, Node>, id: Id, delta: Value, now: int, rw: bool, ww: bool)
    requires Refines(env, t, m)
    ensures Refines(env, UpdateNode(env, t, id, delta, now, rw, ww).0,
                    ApplyToMap(env, t, m, Update(id, delta, now, rw, ww)))
  {
    hide Refines, UpdateNode, Overlay, LaidOver;
    UpdateRefines(env, t, m, id, delta, now, rw, ww);
    var r := UpdateNode(env, t, id, delta, now, rw, ww).1;
    if r.Ok? {
      OverlayIs(m[id].properties, delta, r.value.properties);
    }
  }

  /** The same operation on one plain map; only an update whose read fails has no effect. */
  function ApplyToMap(env: Settings, t: Tables, m: map<Id, Node>, op: Op): map<Id, Node> {
    match op
    case Insert(id, n, _) => m[id := n]
    case Batch(items) => AddAll(m, items)
    case Update(id, delta, now, rw, ww) =>
      if id in m && UpdateNode(env, t, id, delta, now, rw, ww).1.Ok?
      then m[id := m[id].(properties := Overlay(m[id].properties, delta), updatedAt := now)]
      else m
    case Delete(id, _) => m - {id}
    case _ => m
  }

  /**
   * Ids are new when inserted, only cloud payloads are promoted, and a bucket is replaced by one
   * that carries its payloads over.
   */
  ghost predicate Legal(t: Tables, m: map<Id, Node>, op: Op) {
    match op
    case Insert(id, _, _) => id !in m
    case Batch(items) => DistinctIds(items) && forall i :: 0 <= i < |items| ==> items[i].0 !in m
    case PromoteOne(id, _) => InCloud(At(t, id))
    case AttachBucket(objects) => Carries(t, m, objects)
    case _ => true
  }

  lemma StepRefines(env: Settings, t: Tables, m: map<Id, Node>, op: Op)
    requires Refines(env, t, m) && Legal(t, m, op)
    ensures Refines(env, Apply(env, t, op), ApplyToMap(env, t, m, op))
  {
    hide Refines;
    hide At;
    match op
    case Insert(id, n, works) => InsertRefines(env, t, m, id, n, works);
    case Batch(items) => BatchRefines(env, t, m, items);
    case Read(id, works) => GetRefines(env, t, m, id, works);
    case Update(id, delta, now, rw, ww) => UpdateOnMap(env, t, m, id, delta, now, rw, ww);
    case Delete(id, works) => DeleteRefines(env, t, m, id, works);
    case EvictOne(id, works) => EvictRefines(env, t, m, id, works);
    case PromoteOne(id, works) => PromoteCloudRefines(env, t, m, id, works);
    case PrefetchAll(ids) => PrefetchRefines(env, t, m, ids);
    case EvictMany(cands, uploads, current, target) => EvictLoopRefines(env, t, m, cands, uploads, current, target);
    case MigrateAll => MigrateRefines(env, t, m);
    case CacheLoss(lost) => LossRefines(env, t, m, lost);
    case AttachBucket(objects) => AttachExact(env, t, m, objects);
  }

  function Run(env: Settings, t: Tables, ops: seq<Op>): Tables
    decreases |ops|
  {
    if ops == [] then t else Run(env, Apply(env, t, ops[0]), ops[1..])
  }

  function RunOnMap(env: Settings, t: Tables, m: map<Id, Node>, ops: seq<Op>): map<Id, Node>
    decreases |ops|
  {
    if ops == [] then m
    else RunOnMap(env, Apply(env, t, ops[0]), ApplyToMap(env, t, m, ops[0]), ops[1..])
  }

  ghost predicate LegalRun(env: Settings, t: Tables, m: map<Id, Node>, ops: seq<Op>)
    decreases |ops|
  {
    ops == [] ||
    (Legal(t, m, ops[0]) && LegalRun(env, Apply(env, t, ops[0]), ApplyToMap(env, t, m, ops[0]), ops[1..]))
  }

  lemma {:induction false} RunRefines(env: Settings, t: Tables, m: map<Id, Node>, ops: seq<Op>)
    requires Refines(env, t, m) && LegalRun(env, t, m, ops)
    ensures Refines(env, Run(env, t, ops), RunOnMap(env, t, m, ops))
    decreases |ops|
  {
    hide Refines;
    hide Apply;
    hide ApplyToMap;
    hide Legal;
    if ops != [] {
      StepRefines(env, t, m, ops[0]);
      RunRefines(env, Apply(env, t, ops[0]), ApplyToMap(env, t, m, ops[0]), ops[1..]);
    }
  }

  /** A database opened with only legacy rows, whatever its bucket holds, stands for those rows. */
  lemma LegacyStart(env: Settings, legacy: map<Id, Node>, objects: map<Id, Properties>, attached: bool)
    ensures Refines(env, Tables(map[], map[], legacy, map[], objects, attached), legacy)
  {
  }

  /**
   * Over every run from a new or legacy database, with arbitrary cache loss and failing
   * write-through puts, a read of any id returns exactly what one plain map would hold.
   */
  lemma ReadsAgreeWithMap(env: Settings, legacy: map<Id, Node>, objects: map<Id, Properties>, attached: bool,
                          ops: seq<Op>, id: Id)
    requires LegalRun(env, Tables(map[], map[], legacy, map[], objects, attached), legacy, ops)
    ensures var t := Tables(map[], map[], legacy, map[], objects, attached);
            GetNode(env, Run(env, t, ops), id, true).1 == Ok(Get(RunOnMap(env, t, legacy, ops), id))
  {
    var t := Tables(map[], map[], legacy, map[], objects, attached);
    LegacyStart(env, legacy, objects, attached);
    RunRefines(env, t, legacy, ops);
    GetRefines(env, Run(env, t, ops), RunOnMap(env, t, legacy, ops), id, true);
  }

  /** Over every such run the index record of a node describes the payload last written. */
  lemma RunRecordsAreTrue(env: Settings, legacy: map<Id, Node>, objects: map<Id, Properties>, attached: bool,
                          ops: seq<Op>, id: Id)
    requires LegalRun(env, Tables(map[], map[], legacy, map[], objects, attached), legacy, ops)
    ensures var t := Tables(map[], map[], legacy, map[], objects, attached);
            var rec := At(Run(env, t, ops), id).index;
            var m := RunOnMap(env, t, legacy, ops);
            rec.Some? ==> id in m && Sized(env, rec.value, m[id].properties)
  {
    var t := Tables(map[], map[], legacy, map[], objects, attached);
    LegacyStart(env, legacy, objects, attached);
    RunRefines(env, t, legacy, ops);
    if At(Run(env, t, ops), id).index.Some? {
      RecordsAreTrue(env, Run(env, t, ops), RunOnMap(env, t, legacy, ops), id);
    }
  }
}
