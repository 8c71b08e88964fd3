/**
 * Values that flow through the token code: the Python objects that make up a
 * token's claim set, and the claim set itself.
 */
module Values {

  datatype Option<+T> = None | Some(value: T)

  /**
   * A Python value as the token code sees it. The first six constructors are
   * the values JSON can carry (null, bool, number, str, list, dict); `Opaque`
   * stands for any other object (a set, a datetime, an instance of an
   * application class), which `json.dumps` refuses.
   */
  datatype Value =
    | JNull
    | JBool(b: bool)
    | JNum(n: int)
    | JStr(s: string)
    | JList(items: seq<Value>)
    | JDict(fields: map<string, Value>)
    | Opaque(kind: string)

  /** A decoded or freshly built claim set: claim name to claim value. */
  type Payload = map<string, Value>

  /** `json.dumps(v)` succeeds: no opaque object anywhere inside `v`. */
  predicate Serializable(v: Value)
  {
    match v
    case Opaque(_) => false
    case JList(items) => forall i | 0 <= i < |items| :: Serializable(items[i])
    case JDict(fields) => forall k | k in fields :: Serializable(fields[k])
    case _ => true
  }
}
