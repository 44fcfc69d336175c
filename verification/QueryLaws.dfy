/**
 * What the comparison operators of src/query/mod.rs mean, said without naming how they are
 * computed: the laws every filter of a SELECT, UPDATE or DELETE rests on.
 */
module QueryLaws {
  import opened Values
  import opened Query
  import PropertyIndex

  /** Two values the order is about: integers, strings, or floats that are numbers. */
  predicate SameKind(a: Value, b: Value) {
    || (a.Int? && b.Int?)
    || (a.String? && b.String?)
    || (a.Float? && b.Float? && !a.f.NaN? && !b.f.NaN?)
  }

  predicate Numeric(v: Value) { v.Int? || v.Float? }

  predicate Ordering(op: Operator) { op.Lt? || op.Le? || op.Gt? || op.Ge? }

  // ---------- strings ----------

  /** The strings agree before position `i`, where `a` ends or has the smaller character. */
  predicate DecidedAt(a: string, b: string, i: nat) {
    i <= |a| && i < |b| && a[..i] == b[..i] && (i == |a| || a[i] < b[i])
  }

  /** `a` comes before `b` exactly when the first position where they differ says so. */
  lemma {:induction false} StringOrder(lib: Library, a: string, b: string)
    ensures Matches(lib, Lt, String(a), String(b)) <==> exists i: nat :: DecidedAt(a, b, i)
  {
    if b == [] {
    } else if a == [] {
      assert DecidedAt(a, b, 0);
    } else if a[0] == b[0] {
      StringOrder(lib, a[1..], b[1..]);
      if Matches(lib, Lt, String(a), String(b)) {
        var i: nat :| DecidedAt(a[1..], b[1..], i);
        assert a[..i + 1] == [a[0]] + a[1..][..i] && b[..i + 1] == [b[0]] + b[1..][..i];
        assert DecidedAt(a, b, i + 1);
      }
      if i: nat :| DecidedAt(a, b, i) {
        assert i > 0;
        assert a[1..][..i - 1] == a[..i][1..] && b[1..][..i - 1] == b[..i][1..];
        assert DecidedAt(a[1..], b[1..], i - 1);
      }
    } else if a[0] < b[0] {
      assert DecidedAt(a, b, 0);
    } else {
      forall i: nat ensures !DecidedAt(a, b, i) {
        assert i > 0 && i <= |a| && i < |b| ==> a[..i][0] != b[..i][0];
      }
    }
  }

  lemma {:induction false} StringTotal(a: string, b: string)
    ensures StringLess(a, b) ==> a != b && !StringLess(b, a)
    ensures a == b || StringLess(a, b) || StringLess(b, a)
  {
    if a != [] && b != [] && a[0] == b[0] {
      StringTotal(a[1..], b[1..]);
      assert a == [a[0]] + a[1..] && b == [b[0]] + b[1..];
    }
  }

  lemma {:induction false} StringTransitive(a: string, b: string, c: string)
    requires StringLess(a, b) && StringLess(b, c)
    ensures StringLess(a, c)
  {
    if a != [] && a[0] == b[0] && b[0] == c[0] {
      StringTransitive(a[1..], b[1..], c[1..]);
    }
  }

  // ---------- the order ----------

  /** Exactly one of less, equal and greater holds. */
  lemma OrderIsTotal(lib: Library, a: Value, b: Value)
    requires SameKind(a, b)
    ensures var lt, eq, gt := Matches(lib, Lt, a, b), Matches(lib, Eq, a, b), Matches(lib, Gt, a, b);
            (lt && !eq && !gt) || (!lt && eq && !gt) || (!lt && !eq && gt)
  {
    if a.String? {
      StringTotal(a.s, b.s);
    }
  }

  /** At most and at least are less or equal and greater or equal. */
  lemma OrEqual(lib: Library, a: Value, b: Value)
    requires SameKind(a, b)
    ensures Matches(lib, Le, a, b) <==> Matches(lib, Lt, a, b) || Matches(lib, Eq, a, b)
    ensures Matches(lib, Ge, a, b) <==> Matches(lib, Gt, a, b) || Matches(lib, Eq, a, b)
  {
  }

  /** Greater is less with the sides swapped, for all values. */
  lemma Swapped(lib: Library, a: Value, b: Value)
    ensures Matches(lib, Gt, a, b) <==> Matches(lib, Lt, b, a)
    ensures Matches(lib, Ge, a, b) <==> Matches(lib, Le, b, a)
  {
  }

  lemma LtTransitive(lib: Library, a: Value, b: Value, c: Value)
    requires SameKind(a, b) && SameKind(b, c) && Matches(lib, Lt, a, b) && Matches(lib, Lt, b, c)
    ensures Matches(lib, Lt, a, c)
  {
    if a.String? {
      StringTransitive(a.s, b.s, c.s);
    }
  }

  /** On integers less is a positive difference. */
  lemma IntOrder(lib: Library, i: int, j: int)
    ensures Matches(lib, Lt, Int(i), Int(j)) <==> j - i > 0
  {
  }

  /** On floats it is the order of the numbers, with the infinities at the ends; NaN is related to nothing. */
  lemma FloatOrder(lib: Library, x: F64, y: F64)
    ensures x.Finite? && y.Finite? ==>
      (Matches(lib, Lt, Value.Float(x), Value.Float(y)) <==> y.value - x.value > 0.0)
    ensures x.NegInf? && !y.NaN? ==> (Matches(lib, Lt, Value.Float(x), Value.Float(y)) <==> !y.NegInf?)
    ensures y.PosInf? && !x.NaN? ==> (Matches(lib, Lt, Value.Float(x), Value.Float(y)) <==> !x.PosInf?)
    ensures x.NaN? || y.NaN? ==>
      forall op :: Ordering(op) || op.Eq? ==> !Matches(lib, op, Value.Float(x), Value.Float(y))
  {
  }

  /** An integer compares with a float as the float it widens to. */
  lemma MixedOrder(lib: Library, op: Operator, i: int, x: F64)
    requires Ordering(op)
    ensures var wide := Value.Float(Finite(lib.widen(i)));
            && (Matches(lib, op, Int(i), Value.Float(x)) <==> Matches(lib, op, wide, Value.Float(x)))
            && (Matches(lib, op, Value.Float(x), Int(i)) <==> Matches(lib, op, Value.Float(x), wide))
  {
  }

  /** Values of other kinds, or of different ones, are never ordered. */
  lemma Unordered(lib: Library, op: Operator, a: Value, b: Value)
    requires Ordering(op) && !SameKind(a, b) && !(Numeric(a) && Numeric(b))
    ensures !Matches(lib, op, a, b)
  {
  }

  // ---------- equality ----------

  /** No NaN anywhere inside. */
  predicate Proper(v: Value) {
    match v
    case Float(f) => !f.NaN?
    case Vector(xs) => forall i :: 0 <= i < |xs| ==> !xs[i].NaN?
    case Array(elems) => forall i :: 0 <= i < |elems| ==> Proper(elems[i])
    case Object(fields) => forall k :: k in fields ==> Proper(fields[k])
    case _ => true
  }

  /** Two values are equal exactly when they are the same and hold no NaN; different is the opposite. */
  lemma EqIsIdentity(lib: Library, a: Value, b: Value)
    ensures Matches(lib, Eq, a, b) <==> a == b && Proper(a)
    ensures Matches(lib, Ne, a, b) <==> !Matches(lib, Eq, a, b)
  {
    SameIsIdentity(a, b);
  }

  lemma {:induction false} SameIsIdentity(a: Value, b: Value)
    ensures Same(a, b) <==> a == b && Proper(a)
    decreases a
  {
    match (a, b)
    case (Array(xs), Array(ys)) =>
      if |xs| == |ys| {
        forall i | 0 <= i < |xs| ensures Same(xs[i], ys[i]) <==> xs[i] == ys[i] && Proper(xs[i]) {
          SameIsIdentity(xs[i], ys[i]);
        }
        assert Same(a, b) ==> xs == ys;
      }
    case (Object(xs), Object(ys)) =>
      if xs.Keys == ys.Keys {
        forall k | k in xs ensures Same(xs[k], ys[k]) <==> xs[k] == ys[k] && Proper(xs[k]) {
          SameIsIdentity(xs[k], ys[k]);
        }
        assert Same(a, b) ==> xs == ys;
      }
    case (Vector(xs), Vector(ys)) =>
      assert Same(a, b) ==> xs == ys;
    case _ =>
  }

  /**
   * IN means membership, LIKE asks the pattern library about two strings, and the null tests look at
   * the value only.
   */
  lemma OtherOperators(lib: Library, a: Value, b: Value)
    ensures Matches(lib, In, a, b) <==> b.Array? && Proper(a) && a in b.elems
    ensures Matches(lib, Like, a, b) <==> a.String? && b.String? && lib.like(a.s, b.s)
    ensures Matches(lib, IsNull, a, b) <==> a == Null
    ensures Matches(lib, IsNotNull, a, b) <==> a != Null
  {
    if b.Array? {
      forall i | 0 <= i < |b.elems| ensures Same(b.elems[i], a) <==> b.elems[i] == a && Proper(a) {
        SameIsIdentity(b.elems[i], a);
      }
    }
  }

  // ---------- columns ----------

  /** The columns "id" and "type" are the node's own, any other a property, and a missing property is null. */
  lemma ColumnLaws(lib: Library, id: PropertyIndex.Id, n: PropertyIndex.Node, x: string, f: string)
    ensures Meets(lib, id, n, Condition("id", Eq, String(x))) <==> id == x
    ensures Meets(lib, id, n, Condition("type", Eq, String(x))) <==> n.nodeType == x
    ensures f != "id" && f != "type" ==>
      (Meets(lib, id, n, Condition(f, IsNull, Null)) <==> f !in n.properties || n.properties[f] == Null)
    ensures f != "id" && f != "type" && f in n.properties ==>
      forall op, v :: Meets(lib, id, n, Condition(f, op, v)) <==> Matches(lib, op, n.properties[f], v)
  {
  }
}
