/**
  The generic values produced by decoding a JSON document into
  `map[string]interface{}`. Go's `encoding/json` decodes every number into a
  float64, so loaded data only ever holds `Num`; `Int` exists because the
  coercion switch has an `int` arm and the model keeps that arm.
*/
module Json {

  datatype Raw =
    | Null
    | Bool(b: bool)
    | Num(x: real)          // float64, abstracted as a real
    | Int(n: int)           // Go `int`; never produced by the decoder
    | Str(s: string)
    | Arr(items: seq<Raw>)  // []interface{}
    | Obj(fields: map<string, Raw>)

  /** True of the values Go's JSON decoder can produce: no `Int` anywhere. */
  predicate Decoded(v: Raw)
  {
    match v
    case Int(_) => false
    case Arr(items) => forall i | 0 <= i < |items| :: Decoded(items[i])
    case Obj(fields) => forall k | k in fields :: Decoded(fields[k])
    case _ => true
  }
}
