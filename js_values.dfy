/** The JavaScript values a cached task record can hold, and JavaScript truthiness. */
module JsValues {

  /**
   * A JavaScript value as far as the cache distinguishes them. Numbers are
   * finite (`NaN` is separate). `Obj` stands for a plain object or array,
   * which the structured clone algorithm copies; `Func` stands for a function,
   * a symbol or any other value structured clone refuses (an `IDBKeyRange`
   * object among them).
   */
  datatype JsValue = Undefined | Null | Bool(b: bool) | Num(x: real) | NaN | Str(s: string) | Obj | Func

  /** JavaScript's ToBoolean: `undefined`, `null`, `false`, `0`, `-0`, `NaN` and `''` are falsy. */
  predicate Truthy(v: JsValue)
  {
    match v
    case Undefined => false
    case Null => false
    case Bool(b) => b
    case Num(x) => x != 0.0
    case NaN => false
    case Str(s) => s != ""
    case Obj => true
    case Func => true
  }

  /** A plain object: its own properties by name. */
  type Record = map<string, JsValue>

  /** The structured clone algorithm accepts every property of `o`. */
  predicate Cloneable(o: Record)
  {
    forall f :: f in o ==> !o[f].Func?
  }

  /** Property access `o.f`: `undefined` when the property is absent. */
  function Get(o: Record, f: string): JsValue
  {
    if f in o then o[f] else Undefined
  }
}
