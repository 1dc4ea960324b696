/** Small things several components share. */
module Wrappers {
  datatype Option<+T> = None | Some(value: T)

  /** The server's answer to a write that carries a resource version. */
  datatype WriteResult = Ok | Conflict | Error

  /** How often a write is attempted when it meets conflicts. */
  const DEFAULT_RETRY_STEPS := 5

  ghost predicate NoDuplicates<T>(s: seq<T>) {
    forall i, j :: 0 <= i < j < |s| ==> s[i] != s[j]
  }

  /** What an unstable sort by `key` may return. */
  ghost predicate SortedForm<T>(order: seq<T>, items: seq<T>, key: T -> int) {
    multiset(order) == multiset(items) && forall i, j :: 0 <= i < j < |order| ==> key(order[i]) <= key(order[j])
  }
}
