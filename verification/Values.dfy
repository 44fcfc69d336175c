/** Results, options and the property values shared by every other module. */
module Wrappers {
  datatype Option<+T> = None | Some(value: T)

  datatype Result<+T> = Ok(value: T) | Err
}

/** `Value` of src/storage/node.rs: the data a node or an edge can hold. */
module Values {
  /** A 64-bit float: either a finite number or one of the three special values. */
  datatype F64 = Finite(value: real) | NaN | PosInf | NegInf

  /**
   * A property value. A `Vector` holds 32-bit floats; each is kept as the number it
   * stands for, since widening a 32-bit float to 64 bits is exact.
   */
  datatype Value =
    | Null
    | Bool(b: bool)
    | Int(i: int)
    | Float(f: F64)
    | String(s: string)
    | Bytes(bytes: seq<bv8>)
    | Vector(v: seq<F64>)
    | Array(elems: seq<Value>)
    | Object(fields: map<string, Value>)

  type Properties = map<string, Value>
}
