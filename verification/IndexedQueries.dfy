/**
 * Exactly which conditions an index may answer. The planner looks up the literal of the first
 * indexed condition whatever its operator, and a SELECT then drops every indexed condition, so
 * the answer is right on every database only for some conditions; all others have a one-node
 * database that shows it.
 */
module IndexedQueries {
  import opened Wrappers
  import opened Values
  import opened IndexKeys
  import opened PropertyIndex
  import opened Query
  import opened Planner
  import opened Executor

  function Asking(operation: Operation, ty: string, conds: seq<Condition>): Request {
    Request(operation, ty, [], conds, [], None, None, None)
  }

  function Comparing(operation: Operation, ty: string, f: string, op: Operator, v: Value): Request {
    Asking(operation, ty, [Condition(f, op, v)])
  }

  /** Everything the planner takes for an index on one of the columns is one. */
  ghost predicate Live(s: Store, indexed: Indexed, q: Request) {
    forall i :: 0 <= i < |q.conditions| && (q.target, q.conditions[i].column) in indexed ==>
      Registered(s, q.target, q.conditions[i].column)
  }

  /** On every good database with these indexes, the plan finds what the query means. */
  ghost predicate AlwaysRight(fmt: Printer, lib: Library, indexed: Indexed, q: Request) {
    forall s :: Inv(fmt, s) && Live(s, indexed, q) ==> Found(fmt, lib, indexed, s, q) == Naive(lib, s, q)
  }

  lemma NotAlwaysRight(fmt: Printer, lib: Library, indexed: Indexed, q: Request, s: Store)
    requires Inv(fmt, s) && Live(s, indexed, q) && Found(fmt, lib, indexed, s, q) != Naive(lib, s, q)
    ensures !AlwaysRight(fmt, lib, indexed, q)
  {
  }

  /** A column an index can be about: a real property with a NUL-free name. */
  ghost predicate Column(f: string) { NulFree(f) && f != "id" && f != "type" }

  // ---------- a database with one node ----------

  /** A database with indexes on `fields` and no node. */
  function WithIndexes(fmt: Printer, ty: string, fields: seq<string>): Store {
    if fields == [] then EMPTY
    else Create(fmt, WithIndexes(fmt, ty, fields[..|fields| - 1]), ty, fields[|fields| - 1])
  }

  /** The same with one node, whose field `f` holds `w`. */
  function OneNode(fmt: Printer, ty: string, fields: seq<string>, f: string, w: Value): Store {
    Insert(fmt, WithIndexes(fmt, ty, fields), "n", PropertyIndex.Node(ty, map[f := w]))
  }

  lemma {:induction false} WithIndexesIs(fmt: Printer, ty: string, fields: seq<string>)
    requires NulFree(ty) && forall i :: 0 <= i < |fields| ==> NulFree(fields[i])
    ensures var s := WithIndexes(fmt, ty, fields);
            && Inv(fmt, s) && s.nodes == map[] && s.types == {} && s.entries == {}
            && forall i :: 0 <= i < |fields| ==> Registered(s, ty, fields[i])
  {
    hide Key, NulFree, RegKey;
    if fields != [] {
      var init, last := fields[..|fields| - 1], fields[|fields| - 1];
      WithIndexesIs(fmt, ty, init);
      CreateKeeps(fmt, WithIndexes(fmt, ty, init), ty, last);
      assert forall i :: 0 <= i < |init| ==> init[i] == fields[i];
    }
  }

  lemma OneNodeIs(fmt: Printer, ty: string, fields: seq<string>, f: string, w: Value)
    requires NulFree(ty) && forall i :: 0 <= i < |fields| ==> NulFree(fields[i])
    ensures var s := OneNode(fmt, ty, fields, f, w);
            && Inv(fmt, s) && s.nodes == map["n" := PropertyIndex.Node(ty, map[f := w])]
            && forall i :: 0 <= i < |fields| ==> Registered(s, ty, fields[i])
  {
    hide Key, NulFree, RegKey, WithIndexes;
    WithIndexesIs(fmt, ty, fields);
    InsertKeeps(fmt, WithIndexes(fmt, ty, fields), "n", PropertyIndex.Node(ty, map[f := w]));
  }

  /** Columns of the conditions, in order. */
  function Columns(conds: seq<Condition>): seq<string> {
    seq(|conds|, i requires 0 <= i < |conds| => conds[i].column)
  }

  // ---------- conditions all on indexed columns ----------

  ghost predicate AllIndexed(indexed: Indexed, ty: string, conds: seq<Condition>) {
    forall i :: 0 <= i < |conds| ==> (ty, conds[i].column) in indexed
  }

  lemma {:induction false} NoneRemain(indexed: Indexed, ty: string, conds: seq<Condition>)
    requires AllIndexed(indexed, ty, conds)
    ensures Unindexed(indexed, ty, conds) == []
  {
    if conds != [] {
      NoneRemain(indexed, ty, conds[..|conds| - 1]);
    }
  }

  /**
   * What such a plan finds: the nodes whose first column holds the first literal, filtered again
   * unless it is a SELECT.
   */
  lemma FoundByFirst(fmt: Printer, lib: Library, indexed: Indexed, s: Store, q: Request)
    requires Inv(fmt, s) && Finds(q) && q.conditions != [] && AllIndexed(indexed, q.target, q.conditions)
    requires Scalar(q.conditions[0].value) && Registered(s, q.target, q.conditions[0].column)
    ensures var c := q.conditions[0];
            Found(fmt, lib, indexed, s, q) ==
            Keep(lib, s, Scan(s, q.target, c.column, c.value), if q.operation.Select? then [] else q.conditions)
  {
    var c := q.conditions[0];
    LookupIsScan(fmt, s, q.target, c.column, c.value);
    NoneRemain(indexed, q.target, q.conditions);
    hide Inv, Key, RegKey, NulFree, Keep, Unindexed, Scan, Lookup;
    assert FirstIndexed(indexed, q.target, q.conditions) == 0;
  }

  /** The scan of the type for a value, and the nodes of the type meeting one comparison. */
  lemma OneComparison(lib: Library, s: Store, ty: string, f: string, op: Operator, v: Value, id: Id)
    requires id in OfType(s, ty) && Column(f)
    ensures var w := ColumnValue(id, s.nodes[id], f);
            && (MeetsAll(lib, id, s.nodes[id], [Condition(f, op, v)]) <==> Matches(lib, op, w, v))
            && (!v.Null? ==> (id in Scan(s, ty, f, v) <==> w == v))
  {
    hide Matches;
    MeetsOne(lib, id, s.nodes[id], Condition(f, op, v));
  }

  lemma ComparisonFinds(fmt: Printer, lib: Library, indexed: Indexed, s: Store, operation: Operation,
                        ty: string, f: string, op: Operator, v: Value, id: Id)
    requires Inv(fmt, s) && Registered(s, ty, f) && Column(f) && (ty, f) in indexed && Scalar(v)
    requires operation.Select? || operation.UpdateData? || operation.DeleteData?
    ensures var q := Comparing(operation, ty, f, op, v);
            && (id in Found(fmt, lib, indexed, s, q) ==> id in OfType(s, ty))
            && (id in OfType(s, ty) ==>
                  var w := ColumnValue(id, s.nodes[id], f);
                  && (id in Naive(lib, s, q) <==> Matches(lib, op, w, v))
                  && (id in Found(fmt, lib, indexed, s, q) <==>
                    w == v && (operation.Select? || Matches(lib, op, w, v))))
  {
    var q := Comparing(operation, ty, f, op, v);
    FoundByFirst(fmt, lib, indexed, s, q);
    hide Inv, Found, Matches, MeetsAll, Registered;
    if id in OfType(s, ty) {
      OneComparison(lib, s, ty, f, op, v, id);
      NoConditions(lib, id, s.nodes[id]);
    }
  }

  lemma NoConditions(lib: Library, id: Id, n: PropertyIndex.Node)
    ensures MeetsAll(lib, id, n, [])
  {
  }

  // ---------- one comparison ----------

  /** The operator accepts the literal and no other value. */
  ghost predicate AcceptsOnly(lib: Library, op: Operator, v: Value) {
    forall w :: Matches(lib, op, w, v) <==> w == v
  }

  /** The operator accepts at most the literal. */
  ghost predicate AcceptsAtMost(lib: Library, op: Operator, v: Value) {
    forall w :: Matches(lib, op, w, v) ==> w == v
  }

  lemma OneNodeSeparates(fmt: Printer, lib: Library, indexed: Indexed, operation: Operation,
                         ty: string, f: string, op: Operator, v: Value, w: Value)
    requires NulFree(ty) && Column(f) && (ty, f) in indexed && Scalar(v)
    requires operation.Select? || operation.UpdateData? || operation.DeleteData?
    requires if operation.Select? then Matches(lib, op, w, v) <==> w != v else Matches(lib, op, w, v) && w != v
    ensures !AlwaysRight(fmt, lib, indexed, Comparing(operation, ty, f, op, v))
  {
    hide AlwaysRight, Found, Naive, Inv, OneNode, Matches, NulFree, RegKey;
    var q := Comparing(operation, ty, f, op, v);
    var s := OneNode(fmt, ty, [f], f, w);
    OneNodeIs(fmt, ty, [f], f, w);
    assert [f][0] == f;
    ComparisonFinds(fmt, lib, indexed, s, operation, ty, f, op, v, "n");
    assert ColumnValue("n", s.nodes["n"], f) == w;
    NotAlwaysRight(fmt, lib, indexed, q, s);
  }

  /**
   * A SELECT comparing an indexed column with a string, integer or boolean is right on every
   * database if and only if the operator accepts that value and no other.
   */
  lemma SelectExact(fmt: Printer, lib: Library, indexed: Indexed, ty: string, f: string, op: Operator, v: Value)
    requires NulFree(ty) && Column(f) && (ty, f) in indexed && Scalar(v)
    ensures AlwaysRight(fmt, lib, indexed, Comparing(Select, ty, f, op, v)) <==> AcceptsOnly(lib, op, v)
  {
    hide Found, Naive, Inv, Matches, NulFree, RegKey;
    var q := Comparing(Select, ty, f, op, v);
    if AcceptsOnly(lib, op, v) {
      forall s | Inv(fmt, s) && Live(s, indexed, q) ensures Found(fmt, lib, indexed, s, q) == Naive(lib, s, q) {
        ComparisonRight(fmt, lib, indexed, s, Select, ty, f, op, v);
      }
    } else {
      var w :| !(Matches(lib, op, w, v) <==> w == v);
      OneNodeSeparates(fmt, lib, indexed, Select, ty, f, op, v, w);
    }
  }

  /** An UPDATE or DELETE, if and only if the operator accepts no other value. */
  lemma ChangeExact(fmt: Printer, lib: Library, indexed: Indexed, operation: Operation,
                    ty: string, f: string, op: Operator, v: Value)
    requires operation.UpdateData? || operation.DeleteData?
    requires NulFree(ty) && Column(f) && (ty, f) in indexed && Scalar(v)
    ensures AlwaysRight(fmt, lib, indexed, Comparing(operation, ty, f, op, v)) <==> AcceptsAtMost(lib, op, v)
  {
    hide Found, Naive, Inv, Matches, NulFree, RegKey;
    var q := Comparing(operation, ty, f, op, v);
    if AcceptsAtMost(lib, op, v) {
      forall s | Inv(fmt, s) && Live(s, indexed, q) ensures Found(fmt, lib, indexed, s, q) == Naive(lib, s, q) {
        ComparisonRight(fmt, lib, indexed, s, operation, ty, f, op, v);
      }
    } else {
      var w :| Matches(lib, op, w, v) && w != v;
      OneNodeSeparates(fmt, lib, indexed, operation, ty, f, op, v, w);
    }
  }

  lemma ComparisonRight(fmt: Printer, lib: Library, indexed: Indexed, s: Store, operation: Operation,
                        ty: string, f: string, op: Operator, v: Value)
    requires Inv(fmt, s) && Live(s, indexed, Comparing(operation, ty, f, op, v))
    requires NulFree(ty) && Column(f) && (ty, f) in indexed && Scalar(v)
    requires operation.Select? || operation.UpdateData? || operation.DeleteData?
    requires if operation.Select? then AcceptsOnly(lib, op, v) else AcceptsAtMost(lib, op, v)
    ensures var q := Comparing(operation, ty, f, op, v); Found(fmt, lib, indexed, s, q) == Naive(lib, s, q)
  {
    hide Found, Inv, Matches, RegKey, NulFree;
    var q := Comparing(operation, ty, f, op, v);
    assert q.conditions[0].column == f;
    assert Naive(lib, s, q) <= OfType(s, ty);
    hide Naive, OfType;
    forall id ensures id in Found(fmt, lib, indexed, s, q) <==> id in Naive(lib, s, q) {
      ComparisonFinds(fmt, lib, indexed, s, operation, ty, f, op, v, id);
    }
  }

  // ---------- which operators those are ----------

  /** A value that tells an operator from equality with an integer. */
  function Separating(op: Operator, i: int): Value {
    match op
    case Ne => Bool(true)
    case Lt => Value.Float(NegInf)
    case Le => Value.Float(NegInf)
    case Gt => Value.Float(PosInf)
    case Ge => Value.Float(PosInf)
    case IsNull => Null
    case IsNotNull => Bool(true)
    case _ => Int(i)
  }

  /** For an integer literal that is equality only; LIKE and IN, which never match one, do for changes. */
  lemma IntOperators(lib: Library, op: Operator, i: int)
    ensures AcceptsOnly(lib, op, Int(i)) <==> op.Eq?
    ensures AcceptsAtMost(lib, op, Int(i)) <==> op.Eq? || op.In? || op.Like?
  {
    if !op.Eq? {
      var w := Separating(op, i);
      assert Matches(lib, op, w, Int(i)) <==> w != Int(i);
    }
  }

  // ---------- several equalities ----------

  /** All conditions are equalities an index can answer, on columns the planner takes for indexed. */
  ghost predicate IndexedEqualities(indexed: Indexed, ty: string, conds: seq<Condition>) {
    AllIndexed(indexed, ty, conds) && forall i :: 0 <= i < |conds| ==> Answerable(conds[i]) && Column(conds[i].column)
  }

  /**
   * A SELECT by answerable equalities on indexed columns is right on every database if and only
   * if they are all the same condition: only the first is looked up and the rest are dropped.
   */
  lemma EqualitiesExact(fmt: Printer, lib: Library, indexed: Indexed, ty: string, conds: seq<Condition>)
    requires NulFree(ty) && conds != [] && IndexedEqualities(indexed, ty, conds)
    ensures AlwaysRight(fmt, lib, indexed, Asking(Select, ty, conds)) <==>
            forall i :: 0 <= i < |conds| ==> conds[i] == conds[0]
  {
    hide Found, Naive, Inv, NulFree, RegKey;
    var q := Asking(Select, ty, conds);
    if forall i :: 0 <= i < |conds| ==> conds[i] == conds[0] {
      forall s | Inv(fmt, s) && Live(s, indexed, q) ensures Found(fmt, lib, indexed, s, q) == Naive(lib, s, q) {
        RepeatedRight(fmt, lib, indexed, s, ty, conds);
      }
    } else {
      var k :| 0 <= k < |conds| && conds[k] != conds[0];
      DroppedConditionMatters(fmt, lib, indexed, ty, conds, k);
    }
  }

  lemma EqualityMeans(lib: Library, id: Id, n: PropertyIndex.Node, c: Condition)
    requires Answerable(c)
    ensures Meets(lib, id, n, c) <==> ColumnValue(id, n, c.column) == c.value
  {
  }

  lemma RepeatedRight(fmt: Printer, lib: Library, indexed: Indexed, s: Store, ty: string, conds: seq<Condition>)
    requires conds != [] && IndexedEqualities(indexed, ty, conds) && forall i :: 0 <= i < |conds| ==>
      conds[i] == conds[0]
    requires Inv(fmt, s) && Live(s, indexed, Asking(Select, ty, conds))
    ensures var q := Asking(Select, ty, conds); Found(fmt, lib, indexed, s, q) == Naive(lib, s, q)
  {
    var q, c := Asking(Select, ty, conds), conds[0];
    FoundByFirst(fmt, lib, indexed, s, q);
    hide Found, Inv, Meets, Registered;
    forall id | id in OfType(s, ty) ensures MeetsAll(lib, id, s.nodes[id], conds) <==>
      id in Scan(s, ty, c.column, c.value) {
      EqualityMeans(lib, id, s.nodes[id], c);
    }
    KeepNone(lib, s, Scan(s, ty, c.column, c.value));
  }

  /** A node with the first condition's value only is found although it fails the condition `k`. */
  lemma DroppedConditionMatters(fmt: Printer, lib: Library, indexed: Indexed, ty: string, conds: seq<Condition>, k: nat)
    requires NulFree(ty) && IndexedEqualities(indexed, ty, conds) && k < |conds| && conds[k] != conds[0]
    ensures !AlwaysRight(fmt, lib, indexed, Asking(Select, ty, conds))
  {
    var q, c := Asking(Select, ty, conds), conds[0];
    var s := OneNode(fmt, ty, Columns(conds), c.column, c.value);
    OneNodeIs(fmt, ty, Columns(conds), c.column, c.value);
    assert forall i :: 0 <= i < |conds| ==> Columns(conds)[i] == conds[i].column;
    hide OneNode, Columns, NulFree, RegKey, Inv, AlwaysRight;
    FoundByFirst(fmt, lib, indexed, s, q);
    hide Found, Meets;
    KeepNone(lib, s, Scan(s, ty, c.column, c.value));
    assert "n" in Scan(s, ty, c.column, c.value);
    EqualityMeans(lib, "n", s.nodes["n"], conds[k]);
    assert !Meets(lib, "n", s.nodes["n"], conds[k]);
    NotAlwaysRight(fmt, lib, indexed, q, s);
  }
}
