/** JavaScript values as the template code sees them: option objects, event handlers
    and callbacks. Functions supplied by callers are opaque handles, since their code is
    not part of this model. */
module Values {

  datatype Option<T> = None | Some(value: T)

  /** A JavaScript value held in an option field. */
  datatype Value = Undefined | Null | Bool(b: bool) | Num(n: int) | Str(s: string) | Func(id: nat)

  /** JavaScript truthiness: `undefined`, `null`, `false`, `0` and `''` are falsy. */
  predicate Truthy(v: Value)
  {
    match v
    case Undefined => false
    case Null => false
    case Bool(b) => b
    case Num(n) => n != 0
    case Str(s) => s != []
    case Func(_) => true
  }

  /** `a || b` */
  function Or(a: Value, b: Value): Value
  {
    if Truthy(a) then a else b
  }

  /** `a || b` on strings, where only the empty string is falsy. */
  function OrStr(a: string, b: string): string
  {
    if a != [] then a else b
  }
}
