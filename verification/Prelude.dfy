/** Shared vocabulary: optional values and the orders in which hash maps may be iterated. */
module Prelude {
  /** Used where the compiler throws, returns a null pointer or resets an optional. */
  datatype Option<+T> = None | Some(value: T)

  /** `names` lists every key once. */
  ghost predicate IsEnumeration<T(!new)>(names: seq<T>, keys: set<T>) {
    && (forall n :: n in names <==> n in keys)
    && forall i, j :: 0 <= i < j < |names| ==> names[i] != names[j]
  }
}
