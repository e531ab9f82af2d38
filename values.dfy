/** The value layer: a nullable typed scalar, and a row (DataPoint) as a sequence of them. */
module Values {

  /** A VTLObject; `Null` is an object whose `get()` is null. */
  datatype Value =
    | Null
    | Str(s: string)
    | Number(n: real)
    | Boolean(b: bool)
    | Instant(millis: int)

  /** The contents of a DataPoint, positionally aligned with its structure. */
  type Row = seq<Value>
}
