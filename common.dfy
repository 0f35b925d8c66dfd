/** Failure-compatible wrappers shared by every module of the model. */
module Common {

  /** A value that may be absent: Go's nil pointers, absent map keys and "not set" options. */
  datatype Option<+T> = None | Some(value: T) {
    function GetOr(default: T): T {
      match this
      case Some(v) => v
      case None => default
    }
  }

  /** A Go `(value, error)` pair where exactly one side is meaningful. */
  datatype Result<+T, +E> = Ok(value: T) | Err(error: E) {
    predicate IsFailure() {
      Err?
    }

    function PropagateFailure<U>(): Result<U, E>
      requires Err?
    {
      Err(error)
    }

    function Extract(): T
      requires Ok?
    {
      value
    }
  }

  /** A string-keyed map of strings: Go's `domain.Vars`, `domain.Headers`, form maps. */
  type StringMap = map<string, string>

  /** `order` lists every key of `keys` exactly once: one order in which Go may range over a map. */
  predicate IsEnumeration(order: seq<string>, keys: set<string>) {
    |order| == |keys|
    && (forall i :: 0 <= i < |order| ==> order[i] in keys)
    && (forall i, j :: 0 <= i < j < |order| ==> order[i] != order[j])
  }
}
