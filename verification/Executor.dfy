/**
 * Running a plan (src/query/executor.rs, `execute_plan`) over the store of nodes and property
 * indexes, against the simple meaning of a query: scan the type, then filter.
 */
module Executor {
  import opened Wrappers
  import opened Values
  import opened IndexKeys
  import opened PropertyIndex
  import opened Query
  import opened Planner

  /** The nodes that are the current rows, and the nodes an update or delete step has touched. */
  datatype Progress = Progress(rows: Option<set<Id>>, touched: set<Id>)

  function Keep(lib: Library, s: Store, rows: set<Id>, conds: seq<Condition>): set<Id> {
    set id | id in rows && id in s.nodes && MeetsAll(lib, id, s.nodes[id], conds)
  }

  function LookupOrScan(fmt: Printer, s: Store, ty: string, f: string, v: Value): set<Id> {
    var found := Lookup(fmt, s, ty, f, v);
    if found.Some? then found.value else OfType(s, ty)
  }

  /** One step, as far as it decides which nodes are found and touched. */
  function RunStep(fmt: Printer, lib: Library, s: Store, p: Progress, step: Step): Progress {
    match step
    case FullScan(ty) => p.(rows := Some(OfType(s, ty)))
    case IndexLookup(ty, f, v) => p.(rows := Some(LookupOrScan(fmt, s, ty, f, v)))
    case Filter(conds) => if p.rows.Some? then p.(rows := Some(Keep(lib, s, p.rows.value, conds))) else p
    case UpdateNodes(_) => if p.rows.Some? then p.(touched := p.rows.value) else p
    case DeleteNodes => if p.rows.Some? then p.(touched := p.rows.value) else p
    case _ => p
  }

  function RunSteps(fmt: Printer, lib: Library, s: Store, p: Progress, steps: seq<Step>): Progress
    decreases |steps|
  {
    if steps == [] then p else RunSteps(fmt, lib, s, RunStep(fmt, lib, s, p, steps[0]), steps[1..])
  }

  const START: Progress := Progress(None, {})

  /** The step loop. */
  method ExecutePlan(fmt: Printer, lib: Library, s: Store, steps: seq<Step>) returns (p: Progress)
    ensures p == RunSteps(fmt, lib, s, START, steps)
  {
    p := START;
    for i := 0 to |steps|
      invariant RunSteps(fmt, lib, s, p, steps[i..]) == RunSteps(fmt, lib, s, START, steps)
    {
      match steps[i]
      case FullScan(ty) => p := p.(rows := Some(OfType(s, ty)));
      case IndexLookup(ty, f, v) =>
        var found := Lookup(fmt, s, ty, f, v);
        if found.Some? {
          p := p.(rows := Some(found.value));
        } else {
          p := p.(rows := Some(OfType(s, ty)));
        }
      case Filter(conds) =>
        if p.rows.Some? {
          var kept := FilterRows(lib, s, p.rows.value, conds);
          p := p.(rows := Some(kept));
        }
      case UpdateNodes(_) => if p.rows.Some? { p := p.(touched := p.rows.value); }
      case DeleteNodes => if p.rows.Some? { p := p.(touched := p.rows.value); }
      case _ =>
    }
  }

  method FilterRows(lib: Library, s: Store, rows: set<Id>, conds: seq<Condition>) returns (kept: set<Id>)
    ensures kept == Keep(lib, s, rows, conds)
    ensures forall id :: id in kept <==> id in rows && id in s.nodes && MeetsAll(lib, id, s.nodes[id], conds)
  {
    hide MeetsAll;
    kept := {};
    var todo := rows;
    while todo != {}
      invariant todo <= rows && kept == Keep(lib, s, rows - todo, conds)
      decreases |todo|
    {
      var id :| id in todo;
      todo := todo - {id};
      if id in s.nodes {
        var ok := MatchesConditions(lib, id, s.nodes[id], conds);
        if ok {
          kept := kept + {id};
        }
      }
    }
    assert rows - {} == rows;
  }

  // ---------- what a query means ----------

  /** Scan the type, then filter. */
  function Naive(lib: Library, s: Store, q: Request): set<Id> {
    Keep(lib, s, OfType(s, q.target), q.conditions)
  }

  /** The rows a plan has found when it comes to ordering, limiting or changing them. */
  function Found(fmt: Printer, lib: Library, indexed: Indexed, s: Store, q: Request): set<Id> {
    var scanned := match ScanStep(indexed, q.target, q.conditions)
      case IndexLookup(ty, f, v) => LookupOrScan(fmt, s, ty, f, v)
      case _ => OfType(s, q.target);
    Keep(lib, s, scanned, if q.operation.Select? then Remaining(indexed, q.target, q.conditions) else q.conditions)
  }

  predicate Finds(q: Request) { q.operation.Select? || q.operation.UpdateData? || q.operation.DeleteData? }

  lemma KeepNone(lib: Library, s: Store, rows: set<Id>)
    requires rows <= s.nodes.Keys
    ensures Keep(lib, s, rows, []) == rows
  {
  }

  /** The first steps of the plan find exactly `Found`. */
  lemma FindStepsFind(fmt: Printer, lib: Library, indexed: Indexed, s: Store, q: Request)
    requires Finds(q)
    ensures RunSteps(fmt, lib, s, START, FindSteps(indexed, q)) == Progress(Some(Found(fmt, lib, indexed, s, q)), {})
  {
    hide Keep;
    hide MeetsAll;
    hide Remaining;
    hide Key;
    hide ScanStep;
    var scan := ScanStep(indexed, q.target, q.conditions);
    ScanIsScan(indexed, q.target, q.conditions);
    var conds := if q.operation.Select? then Remaining(indexed, q.target, q.conditions) else q.conditions;
    var steps := FindSteps(indexed, q);
    assert steps[1..] == FilterStep(conds);
    var p := RunStep(fmt, lib, s, START, scan);
    if conds == [] {
      assert FilterStep(conds) == [];
      KeepNone(lib, s, p.rows.value);
    } else {
      assert FilterStep(conds) == [Filter(conds)];
      RunOne(fmt, lib, s, p, Filter(conds));
    }
  }

  lemma RunOne(fmt: Printer, lib: Library, s: Store, p: Progress, step: Step)
    ensures RunSteps(fmt, lib, s, p, [step]) == RunStep(fmt, lib, s, p, step)
  {
    hide RunStep;
    assert [step][1..] == [];
    assert RunSteps(fmt, lib, s, RunStep(fmt, lib, s, p, step), []) == RunStep(fmt, lib, s, p, step);
  }

  lemma ScanIsScan(indexed: Indexed, ty: string, conds: seq<Condition>)
    ensures ScanStep(indexed, ty, conds).FullScan? || ScanStep(indexed, ty, conds).IndexLookup?
    ensures ScanStep(indexed, ty, conds).nodeType == ty
  {
  }

  lemma {:induction false} RunConcat(fmt: Printer, lib: Library, s: Store, p: Progress, a: seq<Step>, b: seq<Step>)
    ensures RunSteps(fmt, lib, s, p, a + b) == RunSteps(fmt, lib, s, RunSteps(fmt, lib, s, p, a), b)
    decreases |a|
  {
    hide RunStep;
    if a == [] {
      assert a + b == b;
    } else {
      RunConcat(fmt, lib, s, RunStep(fmt, lib, s, p, a[0]), a[1..], b);
      assert (a + b)[1..] == a[1..] + b;
    }
  }

  /** An UPDATE with data or a DELETE touches exactly the nodes its plan finds. */
  lemma TouchedIsFound(fmt: Printer, lib: Library, indexed: Indexed, s: Store, q: Request)
    requires (q.operation.UpdateData? && q.data.Some?) || q.operation.DeleteData?
    ensures RunSteps(fmt, lib, s, START, PlanOf(indexed, q)).touched == Found(fmt, lib, indexed, s, q)
  {
    FindStepsFind(fmt, lib, indexed, s, q);
    RunConcat(fmt, lib, s, START, FindSteps(indexed, q), TailSteps(q));
    hide FindSteps;
    hide Found;
    assert TailSteps(q)[1..] == [];
  }

  // ---------- the theorems ----------

  /** A registered key always comes from NUL-free names. */
  lemma RegisteredNames(s: Store, ty: string, f: string)
    requires RegistryOk(s) && RegKey(ty, f) in s.registry
    ensures Registered(s, ty, f)
  {
    var ty', f' :| NulFree(ty') && NulFree(f') && RegKey(ty, f) == RegKey(ty', f');
    var k := RegKey(ty, f);
    assert k[|ty|] == NUL;
    assert forall i :: 0 <= i < |k| && k[i] == NUL ==> i == |ty'| by {
      assert forall i :: 0 <= i < |ty'| ==> k[i] == ty'[i] && ty'[i] in ty';
      assert forall i :: |ty'| < i < |k| ==> k[i] == f'[i - |ty'| - 1] && f'[i - |ty'| - 1] in f';
    }
    assert k[..|ty|] == ty && k[..|ty'|] == ty' && k[|ty| + 1..] == f && k[|ty'| + 1..] == f';
  }

  lemma ScannedIsTyped(fmt: Printer, s: Store, ty: string, f: string, v: Value)
    requires Sound(fmt, s)
    ensures LookupOrScan(fmt, s, ty, f, v) <= OfType(s, ty)
  {
    hide Key;
    hide RegKey;
    if RegKey(ty, f) in s.registry {
      RegisteredNames(s, ty, f);
      forall id | id in Lookup(fmt, s, ty, f, v).value ensures id in OfType(s, ty) {
        LookupIsTyped(fmt, s, ty, f, v, id);
      }
    }
  }

  /**
   * Safety, whatever the planner believes and however stale the indexes are: only nodes of the
   * target type that meet every condition are touched.
   */
  lemma TouchedAreWanted(fmt: Printer, lib: Library, indexed: Indexed, s: Store, q: Request)
    requires Sound(fmt, s) && (q.operation.UpdateData? || q.operation.DeleteData?)
    ensures RunSteps(fmt, lib, s, START, PlanOf(indexed, q)).touched <= Naive(lib, s, q)
  {
    hide Sound;
    if q.operation.DeleteData? || q.data.Some? {
      TouchedIsFound(fmt, lib, indexed, s, q);
      FoundIsTyped(fmt, lib, indexed, s, q);
    } else {
      FindStepsFind(fmt, lib, indexed, s, q);
      RunConcat(fmt, lib, s, START, FindSteps(indexed, q), []);
    }
  }

  /** The same after every run from the empty database, with any updates, batches and index creations in it. */
  lemma RunTouchedAreWanted(fmt: Printer, lib: Library, indexed: Indexed, ops: seq<Op>, q: Request)
    requires SaneRun(fmt, EMPTY, ops) && (q.operation.UpdateData? || q.operation.DeleteData?)
    ensures var s := Run(fmt, EMPTY, ops);
            RunSteps(fmt, lib, s, START, PlanOf(indexed, q)).touched <= Naive(lib, s, q)
  {
    RunSound(fmt, EMPTY, ops);
    TouchedAreWanted(fmt, lib, indexed, Run(fmt, EMPTY, ops), q);
  }

  lemma FoundIsTyped(fmt: Printer, lib: Library, indexed: Indexed, s: Store, q: Request)
    requires Sound(fmt, s) && !q.operation.Select?
    ensures Found(fmt, lib, indexed, s, q) <= Naive(lib, s, q)
  {
    hide MeetsAll;
    hide Sound;
    hide LookupOrScan;
    var scan := ScanStep(indexed, q.target, q.conditions);
    if scan.IndexLookup? {
      ScannedIsTyped(fmt, s, q.target, scan.field, scan.value);
    }
  }

  /** The condition an index can answer: equality with a string, integer or boolean on a real property. */
  predicate Answerable(c: Condition) {
    c.op.Eq? && Scalar(c.value) && c.column != "id" && c.column != "type"
  }

  lemma MeetsOne(lib: Library, id: Id, n: Node, c: Condition)
    ensures MeetsAll(lib, id, n, [c]) <==> Meets(lib, id, n, c)
  {
    assert [c][0] == c;
  }

  /** A lookup for an answerable condition finds exactly the nodes of the type that meet it. */
  lemma LookupAnswers(fmt: Printer, lib: Library, s: Store, ty: string, c: Condition)
    requires Inv(fmt, s) && Answerable(c) && RegKey(ty, c.column) in s.registry
    ensures LookupOrScan(fmt, s, ty, c.column, c.value) == Keep(lib, s, OfType(s, ty), [c])
  {
    hide Key;
    RegisteredNames(s, ty, c.column);
    LookupIsScan(fmt, s, ty, c.column, c.value);
    hide Inv;
    forall id | id in OfType(s, ty)
      ensures MeetsAll(lib, id, s.nodes[id], [c]) <==> id in Scan(s, ty, c.column, c.value)
    {
      MeetsOne(lib, id, s.nodes[id], c);
    }
  }

  /**
   * An UPDATE or DELETE touches exactly what the simple meaning asks for when no condition is on
   * an indexed column, or the first such condition is answerable, or its index has been dropped.
   */
  lemma UpdateFindsAll(fmt: Printer, lib: Library, indexed: Indexed, s: Store, q: Request)
    requires Inv(fmt, s) && (q.operation.UpdateData? || q.operation.DeleteData?)
    requires var k := FirstIndexed(indexed, q.target, q.conditions);
             k == |q.conditions| || Answerable(q.conditions[k]) ||
               RegKey(q.target, q.conditions[k].column) !in s.registry
    ensures Found(fmt, lib, indexed, s, q) == Naive(lib, s, q)
  {
    InvIsSound(fmt, s);
    FoundIsTyped(fmt, lib, indexed, s, q);
    hide Inv;
    hide Key;
    hide RegKey;
    var k := FirstIndexed(indexed, q.target, q.conditions);
    if k < |q.conditions| && RegKey(q.target, q.conditions[k].column) in s.registry {
      var c := q.conditions[k];
      LookupAnswers(fmt, lib, s, q.target, c);
      hide LookupOrScan;
      forall id | id in Naive(lib, s, q) ensures id in Found(fmt, lib, indexed, s, q) {
        assert Meets(lib, id, s.nodes[id], c);
      }
    }
  }

  lemma {:induction false} UnindexedAll(lib: Library, indexed: Indexed, ty: string, conds: seq<Condition>, id: Id,
                                        n: Node)
    ensures MeetsAll(lib, id, n, Unindexed(indexed, ty, conds)) <==>
            forall i :: 0 <= i < |conds| && (ty, conds[i].column) !in indexed ==> Meets(lib, id, n, conds[i])
  {
    hide Meets;
    if conds != [] {
      var init, last := conds[..|conds| - 1], conds[|conds| - 1];
      UnindexedAll(lib, indexed, ty, init, id, n);
      var rest := Unindexed(indexed, ty, init);
      assert conds == init + [last];
      assert MeetsAll(lib, id, n, rest + [last]) <==> MeetsAll(lib, id, n, rest) && Meets(lib, id, n, last) by {
        assert forall i :: 0 <= i < |rest| ==> (rest + [last])[i] == rest[i];
        assert (rest + [last])[|rest|] == last;
      }
      assert rest + [] == rest;
    }
  }

  /**
   * The rows of a SELECT, before ordering and limiting, are the simple meaning when at most one
   * condition is on an indexed column, it is answerable, and its index is still registered.
   */
  lemma SelectFindsAll(fmt: Printer, lib: Library, indexed: Indexed, s: Store, q: Request)
    requires Inv(fmt, s) && q.operation.Select?
    requires forall i, j :: 0 <= i < j < |q.conditions| ==>
               (q.target, q.conditions[i].column) !in indexed || (q.target, q.conditions[j].column) !in indexed
    requires forall i :: 0 <= i < |q.conditions| && (q.target, q.conditions[i].column) in indexed ==>
               Answerable(q.conditions[i]) && RegKey(q.target, q.conditions[i].column) in s.registry
    ensures Found(fmt, lib, indexed, s, q) == Naive(lib, s, q)
  {
    hide Inv, Key, RegKey, LookupOrScan, Unindexed, MeetsAll;
    var k := FirstIndexed(indexed, q.target, q.conditions);
    if k < |q.conditions| {
      LookupAnswers(fmt, lib, s, q.target, q.conditions[k]);
      forall id | id in OfType(s, q.target)
        ensures id in Found(fmt, lib, indexed, s, q) <==> id in Naive(lib, s, q)
      {
        OneIndexedSplits(lib, indexed, q.target, q.conditions, k, id, s.nodes[id]);
      }
    }
  }

  /** With condition `k` the only indexed one, a node meets all if it meets that one and the rest. */
  lemma OneIndexedSplits(lib: Library, indexed: Indexed, ty: string, conds: seq<Condition>, k: nat, id: Id, n: Node)
    requires k < |conds| && (ty, conds[k].column) in indexed
    requires forall i :: 0 <= i < |conds| && i != k ==> (ty, conds[i].column) !in indexed
    ensures MeetsAll(lib, id, n, conds) <==>
            MeetsAll(lib, id, n, [conds[k]]) && MeetsAll(lib, id, n, Unindexed(indexed, ty, conds))
  {
    UnindexedAll(lib, indexed, ty, conds, id, n);
    MeetsOne(lib, id, n, conds[k]);
    hide Meets, Unindexed;
  }

  /** With the planner's index gone from the store, a SELECT on that one condition returns the whole type. */
  lemma DroppedIndexIgnoresCondition(fmt: Printer, lib: Library, indexed: Indexed, s: Store, q: Request)
    requires q.operation.Select? && |q.conditions| == 1 && (q.target, q.conditions[0].column) in indexed
    requires RegKey(q.target, q.conditions[0].column) !in s.registry
    ensures Found(fmt, lib, indexed, s, q) == OfType(s, q.target)
  {
    var conds := q.conditions;
    assert Unindexed(indexed, q.target, conds) == [] by {
      assert conds[..0] == [];
    }
    KeepNone(lib, s, OfType(s, q.target));
  }
}
