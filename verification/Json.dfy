/**
 * Conversion between `Value` and JSON (src/storage/node.rs, `to_json` and `from_json`).
 *
 * The main result is exact: a value survives printing and parsing if and only if it is
 * `Plain`, that is, it holds no raw bytes, no float without a JSON form, and no object
 * that the parser would take for the `{"$vector": [...]}` notation.
 */
module Json {
  import opened Wrappers
  import opened Values

  const I64_MIN: int := -0x8000_0000_0000_0000
  const I64_MAX: int := 0x7fff_ffff_ffff_ffff

  /** A JSON number: an integer (signed or unsigned 64-bit) or a finite float. */
  datatype Number = Integer(i: int) | Fraction(r: real)

  datatype Json =
    | JNull
    | JBool(b: bool)
    | JNumber(n: Number)
    | JString(s: string)
    | JArray(elems: seq<Json>)
    | JObject(fields: map<string, Json>)

  /** The foreign conversions: base64, the integer-to-f64 cast and the f64-to-f32 cast. */
  datatype Casts = Casts(base64: seq<bv8> -> string, widen: int -> real, narrow: real -> F64)

  const VECTOR_KEY: string := "$vector"

  function PrintFloat(f: F64): Json {
    if f.Finite? then JNumber(Fraction(f.value)) else JNull
  }

  function ToJson(c: Casts, v: Value): Json
    decreases v
  {
    match v
    case Null => JNull
    case Bool(b) => JBool(b)
    case Int(i) => JNumber(Integer(i))
    case Float(f) => PrintFloat(f)
    case String(s) => JString(s)
    case Bytes(bytes) => JString(c.base64(bytes))
    case Vector(xs) =>
      JObject(map[VECTOR_KEY := JArray(seq(|xs|, i requires 0 <= i < |xs| => PrintFloat(xs[i])))])
    case Array(elems) => JArray(seq(|elems|, i requires 0 <= i < |elems| => ToJson(c, elems[i])))
    case Object(fields) => JObject(map k | k in fields :: ToJson(c, fields[k]))
  }

  function AsF64(c: Casts, n: Number): real {
    match n
    case Integer(i) => c.widen(i)
    case Fraction(r) => r
  }

  predicate IsVectorForm(fields: map<string, Json>) {
    fields.Keys == {VECTOR_KEY} && fields[VECTOR_KEY].JArray?
  }

  function ParseVector(c: Casts, elems: seq<Json>): Result<Value> {
    if forall i :: 0 <= i < |elems| ==> elems[i].JNumber? then
      Ok(Vector(seq(|elems|, i requires 0 <= i < |elems| => c.narrow(AsF64(c, elems[i].n)))))
    else
      Err
  }

  function FromJson(c: Casts, j: Json): Result<Value>
    decreases j
  {
    match j
    case JNull => Ok(Null)
    case JBool(b) => Ok(Bool(b))
    case JNumber(Integer(i)) => if I64_MIN <= i <= I64_MAX then Ok(Int(i)) else Ok(Value.Float(Finite(c.widen(i))))
    case JNumber(Fraction(r)) => Ok(Value.Float(Finite(r)))
    case JString(s) => Ok(String(s))
    case JArray(elems) =>
      if forall i :: 0 <= i < |elems| ==> FromJson(c, elems[i]).Ok? then
        Ok(Array(seq(|elems|, i requires 0 <= i < |elems| => FromJson(c, elems[i]).value)))
      else
        Err
    case JObject(fields) =>
      if IsVectorForm(fields) then
        ParseVector(c, fields[VECTOR_KEY].elems)
      else if forall k :: k in fields ==> FromJson(c, fields[k]).Ok? then
        Ok(Object(map k | k in fields :: FromJson(c, fields[k]).value))
      else
        Err
  }

  /** The ranges the Rust types impose: integers are 64-bit, vector elements are 32-bit floats. */
  ghost predicate Typed(c: Casts, v: Value) {
    match v
    case Int(i) => I64_MIN <= i <= I64_MAX
    case Vector(xs) => forall i :: 0 <= i < |xs| && xs[i].Finite? ==> c.narrow(xs[i].value) == xs[i]
    case Array(elems) => forall i :: 0 <= i < |elems| ==> Typed(c, elems[i])
    case Object(fields) => forall k :: k in fields ==> Typed(c, fields[k])
    case _ => true
  }

  /** The values that have a faithful JSON form. */
  ghost predicate Plain(v: Value) {
    match v
    case Bytes(_) => false
    case Float(f) => f.Finite?
    case Vector(xs) => forall i :: 0 <= i < |xs| ==> xs[i].Finite?
    case Array(elems) => forall i :: 0 <= i < |elems| ==> Plain(elems[i])
    case Object(fields) =>
      && !(fields.Keys == {VECTOR_KEY} && fields[VECTOR_KEY].Array?)
      && forall k :: k in fields ==> Plain(fields[k])
    case _ => true
  }

  ghost predicate RoundTrips(c: Casts, v: Value) {
    FromJson(c, ToJson(c, v)) == Ok(v)
  }

  /** Printing yields a JSON array for arrays and for nothing else. */
  lemma PrintsArray(c: Casts, v: Value)
    ensures ToJson(c, v).JArray? <==> v.Array?
  {
  }

  /** An object prints to the vector notation exactly when its one field is "$vector" and holds an array. */
  lemma ObjectVectorForm(c: Casts, fields: map<string, Value>)
    ensures IsVectorForm(ToJson(c, Object(fields)).fields) <==>
            fields.Keys == {VECTOR_KEY} && fields[VECTOR_KEY].Array?
  {
    var printed := ToJson(c, Object(fields)).fields;
    assert printed.Keys == fields.Keys;
    if VECTOR_KEY in fields {
      PrintsArray(c, fields[VECTOR_KEY]);
    }
  }

  /** A vector survives exactly when all its elements are finite. */
  lemma VectorRoundTrip(c: Casts, xs: seq<F64>)
    requires Typed(c, Vector(xs))
    ensures RoundTrips(c, Vector(xs)) <==> Plain(Vector(xs))
  {
    var j := ToJson(c, Vector(xs));
    var arr := j.fields[VECTOR_KEY].elems;
    assert IsVectorForm(j.fields);
    assert FromJson(c, j) == ParseVector(c, arr);
    if Plain(Vector(xs)) {
      forall i | 0 <= i < |xs|
        ensures arr[i].JNumber? && c.narrow(AsF64(c, arr[i].n)) == xs[i]
      {
      }
      assert FromJson(c, j).value.v == xs;
    } else {
      var i :| 0 <= i < |xs| && !xs[i].Finite?;
      assert arr[i].JNull?;
    }
  }

  lemma ArrayRoundTrip(c: Casts, elems: seq<Value>)
    ensures RoundTrips(c, Array(elems)) <==> forall i :: 0 <= i < |elems| ==> RoundTrips(c, elems[i])
  {
    var printed := ToJson(c, Array(elems)).elems;
    var parsed := FromJson(c, ToJson(c, Array(elems)));
    if forall i :: 0 <= i < |elems| ==> RoundTrips(c, elems[i]) {
      assert forall i :: 0 <= i < |elems| ==> FromJson(c, printed[i]) == Ok(elems[i]);
      assert parsed.value.elems == elems;
    }
    if RoundTrips(c, Array(elems)) {
      assert parsed.Ok? && parsed.value.elems == elems;
      forall i | 0 <= i < |elems| ensures RoundTrips(c, elems[i]) {
        assert FromJson(c, printed[i]).Ok?;
        assert parsed.value.elems[i] == FromJson(c, printed[i]).value;
      }
    }
  }

  lemma ObjectRoundTrip(c: Casts, fields: map<string, Value>)
    ensures RoundTrips(c, Object(fields)) <==>
            && !(fields.Keys == {VECTOR_KEY} && fields[VECTOR_KEY].Array?)
            && forall k :: k in fields ==> RoundTrips(c, fields[k])
  {
    ObjectVectorForm(c, fields);
    var printed := ToJson(c, Object(fields)).fields;
    var parsed := FromJson(c, ToJson(c, Object(fields)));
    if IsVectorForm(printed) {
      assert parsed == ParseVector(c, printed[VECTOR_KEY].elems);
    } else {
      if forall k :: k in fields ==> RoundTrips(c, fields[k]) {
        assert forall k :: k in printed ==> FromJson(c, printed[k]) == Ok(fields[k]);
        assert parsed.value.fields == fields;
      }
      if RoundTrips(c, Object(fields)) {
        forall k | k in fields ensures RoundTrips(c, fields[k]) {
          assert k in printed && FromJson(c, printed[k]).Ok?;
          assert parsed.value.fields[k] == FromJson(c, printed[k]).value;
        }
      }
    }
  }

  /** Printing then parsing gives the value back if and only if the value is plain. */
  lemma {:induction false} RoundTripExact(c: Casts, v: Value)
    requires Typed(c, v)
    ensures RoundTrips(c, v) <==> Plain(v)
  {
    match v
    case Vector(xs) => VectorRoundTrip(c, xs);
    case Array(elems) =>
      ArrayRoundTrip(c, elems);
      forall i | 0 <= i < |elems| ensures RoundTrips(c, elems[i]) <==> Plain(elems[i]) {
        RoundTripExact(c, elems[i]);
      }
    case Object(fields) =>
      ObjectRoundTrip(c, fields);
      forall k | k in fields ensures RoundTrips(c, fields[k]) <==> Plain(fields[k]) {
        RoundTripExact(c, fields[k]);
      }
    case _ =>
  }

  /** Every vector element in a JSON text stays finite when it is rounded to 32 bits. */
  ghost predicate Narrowable(c: Casts, j: Json) {
    match j
    case JArray(elems) => forall i :: 0 <= i < |elems| ==> Narrowable(c, elems[i])
    case JObject(fields) =>
      && (IsVectorForm(fields) ==>
            var es := fields[VECTOR_KEY].elems;
            forall i :: 0 <= i < |es| && es[i].JNumber? ==> c.narrow(AsF64(c, es[i].n)).Finite?)
      && forall k :: k in fields ==> Narrowable(c, fields[k])
    case _ => true
  }

  /** Rounding a number that is already a 32-bit float changes nothing. */
  ghost predicate NarrowsOnce(c: Casts) {
    forall r: real :: c.narrow(r).Finite? ==> c.narrow(c.narrow(r).value) == c.narrow(r)
  }

  lemma {:induction false} ParsedIsTyped(c: Casts, j: Json)
    requires NarrowsOnce(c) && FromJson(c, j).Ok?
    ensures Typed(c, FromJson(c, j).value)
  {
    match j
    case JArray(elems) =>
      forall i | 0 <= i < |elems| ensures Typed(c, FromJson(c, elems[i]).value) {
        ParsedIsTyped(c, elems[i]);
      }
    case JObject(fields) =>
      if !IsVectorForm(fields) {
        forall k | k in fields ensures Typed(c, FromJson(c, fields[k]).value) {
          ParsedIsTyped(c, fields[k]);
        }
      }
    case _ =>
  }

  lemma ParsesToArray(c: Casts, j: Json)
    requires FromJson(c, j).Ok?
    ensures FromJson(c, j).value.Array? <==> j.JArray?
  {
  }

  lemma NumbersNarrow(c: Casts, elems: seq<Json>)
    requires forall i :: 0 <= i < |elems| ==> elems[i].JNumber?
    ensures Narrowable(c, JArray(elems))
  {
  }

  /** What the parser accepts is plain if and only if no vector element overflows 32 bits. */
  lemma {:induction false} ParsedIsPlain(c: Casts, j: Json)
    requires FromJson(c, j).Ok?
    ensures Plain(FromJson(c, j).value) <==> Narrowable(c, j)
  {
    match j
    case JArray(elems) =>
      var parsed := FromJson(c, j).value.elems;
      forall i | 0 <= i < |elems| ensures Plain(parsed[i]) <==> Narrowable(c, elems[i]) {
        ParsedIsPlain(c, elems[i]);
      }
    case JObject(fields) =>
      if IsVectorForm(fields) {
        var es, xs := fields[VECTOR_KEY].elems, FromJson(c, j).value.v;
        NumbersNarrow(c, es);
        assert fields[VECTOR_KEY] == JArray(es);
        assert forall i :: 0 <= i < |es| ==> es[i].JNumber? && xs[i] == c.narrow(AsF64(c, es[i].n));
      } else {
        var parsed := FromJson(c, j).value.fields;
        assert parsed.Keys == fields.Keys;
        forall k | k in fields
          ensures Plain(parsed[k]) <==> Narrowable(c, fields[k])
          ensures parsed[k].Array? <==> fields[k].JArray?
        {
          ParsedIsPlain(c, fields[k]);
          ParsesToArray(c, fields[k]);
        }
      }
    case _ =>
  }

  ghost predicate Stable(c: Casts, j: Json)
    requires FromJson(c, j).Ok?
  {
    FromJson(c, ToJson(c, FromJson(c, j).value)) == FromJson(c, j)
  }

  /** What the parser accepts survives printing and parsing again if and only if no vector element overflows 32 bits. */
  lemma StableExact(c: Casts, j: Json)
    requires NarrowsOnce(c) && FromJson(c, j).Ok?
    ensures Stable(c, j) <==> Narrowable(c, j)
  {
    ParsedIsTyped(c, j);
    ParsedIsPlain(c, j);
    RoundTripExact(c, FromJson(c, j).value);
  }

  const HUGE: real := 1e300

  /** The text {"$vector": [1e300]} is accepted, prints with a null in it, and is then refused. */
  lemma HugeElementIsLost(c: Casts)
    requires c.narrow(HUGE) == PosInf
    ensures var j := JObject(map[VECTOR_KEY := JArray([JNumber(Fraction(HUGE))])]);
            && FromJson(c, j) == Ok(Vector([PosInf]))
            && ToJson(c, Vector([PosInf])) == JObject(map[VECTOR_KEY := JArray([JNull])])
            && FromJson(c, ToJson(c, Vector([PosInf]))).Err?
  {
    var elems := [JNumber(Fraction(HUGE))];
    var j := JObject(map[VECTOR_KEY := JArray(elems)]);
    assert IsVectorForm(j.fields);
    assert elems[0].JNumber? && AsF64(c, elems[0].n) == HUGE;
    assert ParseVector(c, elems).value.v == [PosInf];
    var printed := ToJson(c, Vector([PosInf]));
    assert printed.fields[VECTOR_KEY].elems == [JNull];
    assert IsVectorForm(printed.fields) && [JNull][0] == JNull;
  }

  // ---------- the notation itself ----------

  /**
   * Null, booleans, integers, finite floats and strings are written as themselves; raw bytes come
   * back as their text.
   */
  lemma ScalarForms(c: Casts, b: bool, i: int, r: real, s: string, bytes: seq<bv8>)
    ensures ToJson(c, Null) == JNull && ToJson(c, Bool(b)) == JBool(b) && ToJson(c, Int(i)) == JNumber(Integer(i))
    ensures ToJson(c, Value.Float(Finite(r))) == JNumber(Fraction(r)) && ToJson(c, String(s)) == JString(s)
    ensures forall f :: f in {NaN, PosInf, NegInf} ==> ToJson(c, Value.Float(f)) == JNull
    ensures FromJson(c, ToJson(c, Bytes(bytes))) == Ok(String(c.base64(bytes)))
  {
  }

  /** An integer beyond 64 bits is read as the float it widens to. */
  lemma IntegerForms(c: Casts, i: int)
    ensures FromJson(c, JNumber(Integer(i))) ==
            if -0x8000_0000_0000_0000 <= i < 0x8000_0000_0000_0000 then Ok(Int(i))
            else Ok(Value.Float(Finite(c.widen(i))))
  {
  }

  /**
   * The vector notation is read element by element, integers widened first, each number then
   * narrowed to 32 bits; anything but numbers is refused.
   */
  lemma VectorForm(c: Casts, elems: seq<Json>)
    ensures var r := FromJson(c, JObject(map["$vector" := JArray(elems)]));
            && (r.Ok? <==> forall i :: 0 <= i < |elems| ==> elems[i].JNumber?)
            && (r.Ok? ==> r.value.Vector? && |r.value.v| == |elems|)
            && (r.Ok? ==> forall i :: 0 <= i < |elems| ==>
                  r.value.v[i] == c.narrow(if elems[i].n.Integer? then c.widen(elems[i].n.i) else elems[i].n.r))
  {
    var fields := map["$vector" := JArray(elems)];
    assert IsVectorForm(fields);
    var r := FromJson(c, JObject(fields));
    assert r == ParseVector(c, elems);
    forall i | 0 <= i < |elems| && r.Ok?
      ensures r.value.v[i] == c.narrow(if elems[i].n.Integer? then c.widen(elems[i].n.i) else elems[i].n.r)
    {
      assert r.value.v[i] == c.narrow(AsF64(c, elems[i].n));
    }
  }
}
