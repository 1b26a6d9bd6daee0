/**
  The value model of the schema-less JSON reader: the abstract `Element`
  class and its seven subclasses become one closed datatype. The `Type`
  enumeration and the `is_type`/`to_type` downcasts are the constructor
  discriminators (`v.Int?`, `v.Object?`, ...) and destructors (`v.i`,
  `v.fields`, ...).
*/
module JsonValue {

  /** The range of a C# `int`. */
  newtype int32 = x: int | -0x8000_0000 <= x < 0x8000_0000

  datatype Value =
    | Null
    | Int(i: int32)
      /** The payload of a `Float` is the literal text the reader consumed;
          its single-precision value is left abstract. */
    | Float(literal: string)
    | String(str: string)
    | Bool(b: bool)
    | List(items: seq<Value>)
    | Object(fields: map<string, Value>)
}
