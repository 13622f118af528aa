/** Database values. */
module Values {
  type Byte = b: nat | b < 256

  datatype Value =
    | Null
    | Int(i: int)
    | Double(d: real)
    | Text(s: string)
    | Bool(b: bool)
    | Blob(bytes: seq<Byte>)

  type Columns = map<string, Value>

  /** A generated key that has not been generated yet. */
  predicate IsEmptyGenerated(v: Value) { v.Null? || v == Int(0) }
}
