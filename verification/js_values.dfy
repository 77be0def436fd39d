/**
 * The JavaScript values the library inspects: rows handed to the graph builder,
 * option objects handed to the path search, and the errors it reports.
 * Numbers are integers only.
 */
module JsValues {

  datatype JsValue =
    | Undefined
    | Null
    | Bool(b: bool)
    | Num(n: int)
    | Str(s: string)
    | Arr(elems: seq<JsValue>)
    | Obj(fields: map<string, JsValue>)

  /** The two kinds of error object the library constructs. */
  datatype JsError = Error(message: string) | TypeError(message: string)

  /** lodash `_.isObject`: arrays and plain objects (functions are not modelled). */
  predicate IsObject(v: JsValue) {
    v.Arr? || v.Obj?
  }

  /** Property read `v.key`; an array has no named properties, anything else reads `undefined`. */
  function Get(v: JsValue, key: string): JsValue {
    if v.Obj? && key in v.fields then v.fields[key] else Undefined
  }
}
