/**
 * The Java values that the request builder stores: the `Object` arguments of
 * `param`, `header`, `form`, `path(Object...)` and `data`, and the `Param`
 * key/value pairs the builder keeps in its lists.
 */
module JavaValues {
  import opened Wrappers

  /**
   * A Java object as far as the builder can observe it: `null`, an object that
   * is not an `Iterable`, or an `Iterable` with its elements in iteration order.
   * `text` is what the object's `toString()` returns.
   */
  datatype Value =
    | Null
    | Scalar(text: string)
    | Many(elems: seq<Value>, text: string)

  /** `Objects.toString(v)`: "null" for a null reference, `v.toString()` otherwise. */
  function ToString(v: Value): (s: string)
    ensures v.Null? ==> s == "null"
    ensures !v.Null? ==> s == v.text
  {
    match v
    case Null => "null"
    case Scalar(t) => t
    case Many(_, t) => t
  }

  /** `SimpleRequestBuilder.Param`: one key with one (possibly null) value. */
  datatype Param = Param(k: string, v: Value)

  /** The exceptions the modelled code throws. */
  datatype Exception =
    | NullPointer(detail: Option<string>)
    | IllegalArgument(message: string)
    | UnsupportedOperation(message: string)
    | ClassCast(message: string)
    | IndexOutOfBounds(message: string)
    | Runtime(message: string)

  /** A call that returns normally (`Pass`) or throws. */
  datatype Outcome = Pass | Throw(exception: Exception)
}
