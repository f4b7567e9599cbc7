/** JavaScript values that the components inspect: `undefined`/`NaN`
    stand as `None`, and a TypeError raised while rendering (reading a
    property of `undefined`) is an explicit outcome. */
module JsValues {

  /** A value that may be `undefined` (or, for numbers, `NaN`). */
  datatype Option<+T> = None | Some(value: T) {
    /** `x ?? d`: the value, or `d` when it is `undefined`. */
    function GetOr(default: T): T {
      match this
      case Some(v) => v
      case None => default
    }
  }

  /** The outcome of evaluating an expression that can throw. */
  datatype Eval<+T> = Value(value: T) | TypeError

  /** JavaScript truthiness of a string: only `""` is falsy. */
  predicate TruthyString(s: string) {
    s != ""
  }

  /** Truthiness of an optional string. */
  predicate TruthyOptString(s: Option<string>) {
    s.Some? && TruthyString(s.value)
  }

  /** Length-checked `xs[0]`: `undefined` on an empty array. */
  function First<T>(xs: seq<T>): Option<T>
  {
    if |xs| == 0 then None else Some(xs[0])
  }
}
