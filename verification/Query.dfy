/** Query conditions and their meaning (src/query/mod.rs, and `matches_conditions` of src/query/executor.rs). */
module Query {
  import opened Values
  import opened PropertyIndex

  datatype Operator = Eq | Ne | Lt | Le | Gt | Ge | Like | In | IsNull | IsNotNull

  datatype Condition = Condition(column: string, op: Operator, value: Value)

  /** Foreign parts: pattern matching and the integer-to-float cast. */
  datatype Library = Library(like: (string, string) -> bool, widen: int -> real)

  predicate SameFloat(x: F64, y: F64) { !x.NaN? && x == y }

  predicate FloatLess(x: F64, y: F64) {
    match (x, y)
    case (Finite(a), Finite(b)) => a < b
    case (NegInf, Finite(_)) => true
    case (NegInf, PosInf) => true
    case (Finite(_), PosInf) => true
    case _ => false
  }

  /** Value equality: structural, except that NaN equals nothing. */
  predicate Same(a: Value, b: Value) {
    match (a, b)
    case (Float(x), Float(y)) => SameFloat(x, y)
    case (Vector(xs), Vector(ys)) => |xs| == |ys| && forall i :: 0 <= i < |xs| ==> SameFloat(xs[i], ys[i])
    case (Array(xs), Array(ys)) => |xs| == |ys| && forall i :: 0 <= i < |xs| ==> Same(xs[i], ys[i])
    case (Object(xs), Object(ys)) => xs.Keys == ys.Keys && forall k :: k in xs ==> Same(xs[k], ys[k])
    case _ => a == b
  }

  /** Lexicographic order of strings. */
  predicate StringLess(a: string, b: string) {
    b != [] && (a == [] || a[0] < b[0] || (a[0] == b[0] && StringLess(a[1..], b[1..])))
  }

  predicate Less(lib: Library, l: Value, r: Value) {
    match (l, r)
    case (Int(a), Int(b)) => a < b
    case (Float(a), Float(b)) => FloatLess(a, b)
    case (Int(a), Float(b)) => FloatLess(Finite(lib.widen(a)), b)
    case (Float(a), Int(b)) => FloatLess(a, Finite(lib.widen(b)))
    case (String(a), String(b)) => StringLess(a, b)
    case _ => false
  }

  predicate LessEq(lib: Library, l: Value, r: Value) {
    match (l, r)
    case (Int(a), Int(b)) => a <= b
    case (Float(a), Float(b)) => FloatLess(a, b) || SameFloat(a, b)
    case (Int(a), Float(b)) => FloatLess(Finite(lib.widen(a)), b) || SameFloat(Finite(lib.widen(a)), b)
    case (Float(a), Int(b)) => FloatLess(a, Finite(lib.widen(b))) || SameFloat(a, Finite(lib.widen(b)))
    case (String(a), String(b)) => StringLess(a, b) || a == b
    case _ => false
  }

  /** `Operator::matches`. */
  predicate Matches(lib: Library, op: Operator, l: Value, r: Value) {
    match op
    case Eq => Same(l, r)
    case Ne => !Same(l, r)
    case Lt => Less(lib, l, r)
    case Le => LessEq(lib, l, r)
    case Gt => Less(lib, r, l)
    case Ge => LessEq(lib, r, l)
    case Like => l.String? && r.String? && lib.like(l.s, r.s)
    case In => r.Array? && exists i :: 0 <= i < |r.elems| && Same(r.elems[i], l)
    case IsNull => l.Null?
    case IsNotNull => !l.Null?
  }

  /** The value a condition looks at; a missing property counts as null. */
  function ColumnValue(id: Id, n: Node, column: string): Value {
    if column == "id" then String(id)
    else if column == "type" then String(n.nodeType)
    else if column in n.properties then n.properties[column]
    else Null
  }

  predicate Meets(lib: Library, id: Id, n: Node, c: Condition) {
    Matches(lib, c.op, ColumnValue(id, n, c.column), c.value)
  }

  predicate MeetsAll(lib: Library, id: Id, n: Node, conds: seq<Condition>) {
    forall i :: 0 <= i < |conds| ==> Meets(lib, id, n, conds[i])
  }

  /** `matches_conditions`: the loop stops at the first condition that fails. */
  method MatchesConditions(lib: Library, id: Id, n: Node, conds: seq<Condition>) returns (ok: bool)
    ensures ok <==> MeetsAll(lib, id, n, conds)
    ensures ok <==> forall c :: c in conds ==> Matches(lib, c.op, ColumnValue(id, n, c.column), c.value)
  {
    for i := 0 to |conds|
      invariant forall j :: 0 <= j < i ==> Meets(lib, id, n, conds[j])
    {
      var value := ColumnValue(id, n, conds[i].column);
      if !Matches(lib, conds[i].op, value, conds[i].value) {
        return false;
      }
    }
    ok := true;
  }
}

/** The planner of src/query/planner.rs. */
module Planner {
  import opened Wrappers
  import opened Values
  import opened Query

  datatype Operation = Select | InsertData | UpdateData | DeleteData | TraverseGraph | Other

  datatype OrderBy = OrderBy(column: string, descending: bool)

  datatype Request = Request(operation: Operation, target: string, columns: seq<string>, conditions: seq<Condition>,
                             orderBy: seq<OrderBy>, limit: Option<nat>, offset: Option<nat>, data: Option<Properties>)

  datatype Step =
    | FullScan(nodeType: string)
    | IndexLookup(nodeType: string, field: string, value: Value)
    | Filter(conditions: seq<Condition>)
    | Sort(column: string, descending: bool)
    | Limit(count: nat, offset: nat)
    | Project(columns: seq<string>)
    | InsertNode(nodeType: string, data: Properties)
    | UpdateNodes(data: Properties)
    | DeleteNodes
    | TraverseFrom(start: string, depth: nat)

  /** The fields the planner believes to be indexed, as (type, field) pairs. */
  type Indexed = set<(string, string)>

  /** The position of the first condition on an indexed column, or the number of conditions. */
  function FirstIndexed(indexed: Indexed, ty: string, conds: seq<Condition>): (k: nat)
    ensures k <= |conds|
    ensures forall i :: 0 <= i < k ==> (ty, conds[i].column) !in indexed
    ensures k < |conds| ==> (ty, conds[k].column) in indexed
  {
    if conds == [] || (ty, conds[0].column) in indexed then 0 else 1 + FirstIndexed(indexed, ty, conds[1..])
  }

  /** `plan_scan`: an index lookup for the first indexed condition, whatever its operator. */
  function ScanStep(indexed: Indexed, ty: string, conds: seq<Condition>): Step {
    var k := FirstIndexed(indexed, ty, conds);
    if k < |conds| then IndexLookup(ty, conds[k].column, conds[k].value) else FullScan(ty)
  }

  predicate UsesIndex(indexed: Indexed, ty: string, conds: seq<Condition>) {
    FirstIndexed(indexed, ty, conds) < |conds|
  }

  /** The conditions a SELECT still filters by: with an index in use, those on columns that are not indexed. */
  function Unindexed(indexed: Indexed, ty: string, conds: seq<Condition>): seq<Condition> {
    if conds == [] then [] else
    var c := conds[|conds| - 1];
    Unindexed(indexed, ty, conds[..|conds| - 1]) + if (ty, c.column) in indexed then [] else [c]
  }

  function Remaining(indexed: Indexed, ty: string, conds: seq<Condition>): seq<Condition> {
    if UsesIndex(indexed, ty, conds) then Unindexed(indexed, ty, conds) else conds
  }

  function FilterStep(conds: seq<Condition>): seq<Step> { if conds == [] then [] else [Filter(conds)] }

  function SortSteps(orderBy: seq<OrderBy>): seq<Step> {
    seq(|orderBy|, i requires 0 <= i < |orderBy| => Sort(orderBy[i].column, orderBy[i].descending))
  }

  function GetOr(o: Option<nat>, d: nat): nat { if o.Some? then o.value else d }

  /** The part of a plan that finds the nodes. */
  function FindSteps(indexed: Indexed, q: Request): seq<Step> {
    [ScanStep(indexed, q.target, q.conditions)]
    + FilterStep(if q.operation.Select? then Remaining(indexed, q.target, q.conditions) else q.conditions)
  }

  /** The part that comes after: ordering and limiting rows, or changing nodes. */
  function TailSteps(q: Request): seq<Step> {
    match q.operation
    case Select =>
      SortSteps(q.orderBy)
      + (if q.limit.Some? then [Limit(q.limit.value, GetOr(q.offset, 0))] else [])
      + (if q.columns != [] then [Project(q.columns)] else [])
    case UpdateData => if q.data.Some? then [UpdateNodes(q.data.value)] else []
    case DeleteData => [DeleteNodes]
    case _ => []
  }

  function PlanOf(indexed: Indexed, q: Request): seq<Step> {
    match q.operation
    case InsertData => if q.data.Some? then [InsertNode(q.target, q.data.value)] else []
    case TraverseGraph => [TraverseFrom(q.target, GetOr(q.limit, 2))]
    case Other => []
    case _ => FindSteps(indexed, q) + TailSteps(q)
  }

  /**
   * What follows the rows of a SELECT: one sort per ordering key with its direction, then the limit
   * with its offset, 0 if none was given, then the projection.
   */
  lemma SelectTail(indexed: Indexed, q: Request)
    requires q.operation.Select?
    ensures var plan, n, m := PlanOf(indexed, q), |FindSteps(indexed, q)|, |q.orderBy|;
            && |plan| == n + m + (if q.limit.Some? then 1 else 0) + (if q.columns != [] then 1 else 0)
            && plan[..n] == FindSteps(indexed, q)
            && (forall i :: 0 <= i < m ==> plan[n + i] == Sort(q.orderBy[i].column, q.orderBy[i].descending))
            && (q.limit.Some? && q.offset.Some? ==> plan[n + m].Limit? && plan[n + m].count == q.limit.value
                                                    && plan[n + m].offset == q.offset.value)
            && (q.limit.Some? && q.offset.None? ==> plan[n + m] == Limit(q.limit.value, 0))
            && (q.columns != [] ==> plan[|plan| - 1] == Project(q.columns))
  {
  }

  /**
   * The other plans: an insert of the given data, a traversal two deep unless a limit is given,
   * changes after the rows.
   */
  lemma OtherPlans(indexed: Indexed, q: Request)
    ensures q.operation.InsertData? && q.data.Some? ==> PlanOf(indexed, q) == [InsertNode(q.target, q.data.value)]
    ensures q.operation.TraverseGraph? ==>
      PlanOf(indexed, q) == [TraverseFrom(q.target, if q.limit.Some? then q.limit.value else 2)]
    ensures q.operation.UpdateData? && q.data.Some? ==>
      PlanOf(indexed, q) == FindSteps(indexed, q) + [UpdateNodes(q.data.value)]
    ensures q.operation.DeleteData? ==> PlanOf(indexed, q) == FindSteps(indexed, q) + [DeleteNodes]
  {
  }

  /** The search loop of `plan_scan`. */
  method PlanScan(indexed: Indexed, ty: string, conds: seq<Condition>) returns (step: Step, usesIndex: bool)
    ensures step == ScanStep(indexed, ty, conds) && usesIndex == UsesIndex(indexed, ty, conds)
  {
    for i := 0 to |conds|
      invariant forall j :: 0 <= j < i ==> (ty, conds[j].column) !in indexed
    {
      if (ty, conds[i].column) in indexed {
        return IndexLookup(ty, conds[i].column, conds[i].value), true;
      }
    }
    return FullScan(ty), false;
  }

  /** The two collecting loops of a SELECT: indexed columns first, then the conditions on other columns. */
  method RemainingConditions(indexed: Indexed, ty: string, conds: seq<Condition>, usesIndex: bool)
    returns (rest: seq<Condition>)
    requires usesIndex == UsesIndex(indexed, ty, conds)
    ensures rest == Remaining(indexed, ty, conds)
  {
    var covered: set<string> := {};
    if usesIndex {
      for i := 0 to |conds|
        invariant covered == set j | 0 <= j < i && (ty, conds[j].column) in indexed :: conds[j].column
      {
        if (ty, conds[i].column) in indexed {
          covered := covered + {conds[i].column};
        }
      }
    }
    rest := [];
    for i := 0 to |conds|
      invariant rest == if usesIndex then Unindexed(indexed, ty, conds[..i]) else conds[..i]
    {
      assert conds[..i + 1][..i] == conds[..i];
      if conds[i].column !in covered {
        rest := rest + [conds[i]];
      }
    }
    assert conds[..|conds|] == conds;
  }

  /** The steps of a SELECT, in the order they are pushed. */
  method PlanSelect(indexed: Indexed, q: Request) returns (steps: seq<Step>)
    requires q.operation.Select?
    ensures steps == PlanOf(indexed, q)
  {
    hide ScanStep;
    hide UsesIndex;
    hide Remaining;
    var scan, usesIndex := PlanScan(indexed, q.target, q.conditions);
    steps := [scan];
    var rest := RemainingConditions(indexed, q.target, q.conditions, usesIndex);
    if rest != [] {
      steps := steps + [Filter(rest)];
    }
    var tail: seq<Step> := [];
    for i := 0 to |q.orderBy|
      invariant tail == SortSteps(q.orderBy[..i])
    {
      tail := tail + [Sort(q.orderBy[i].column, q.orderBy[i].descending)];
    }
    assert q.orderBy[..|q.orderBy|] == q.orderBy;
    if q.limit.Some? {
      tail := tail + [Limit(q.limit.value, if q.offset.Some? then q.offset.value else 0)];
    }
    if q.columns != [] {
      tail := tail + [Project(q.columns)];
    }
    steps := steps + tail;
  }

  method Plan(indexed: Indexed, q: Request) returns (steps: seq<Step>)
    ensures steps == PlanOf(indexed, q)
  {
    hide ScanStep;
    hide UsesIndex;
    hide Remaining;
    steps := [];
    match q.operation
    case Select => steps := PlanSelect(indexed, q);
    case InsertData =>
      if q.data.Some? {
        steps := [InsertNode(q.target, q.data.value)];
      }
    case UpdateData =>
      var scan, usesIndex := PlanScan(indexed, q.target, q.conditions);
      steps := [scan];
      if q.conditions != [] {
        steps := steps + [Filter(q.conditions)];
      }
      if q.data.Some? {
        steps := steps + [UpdateNodes(q.data.value)];
      }
    case DeleteData =>
      var scan, usesIndex := PlanScan(indexed, q.target, q.conditions);
      steps := [scan];
      if q.conditions != [] {
        steps := steps + [Filter(q.conditions)];
      }
      steps := steps + [DeleteNodes];
    case TraverseGraph =>
      steps := [TraverseFrom(q.target, if q.limit.Some? then q.limit.value else 2)];
    case Other =>
  }
}
