/** Names shared by the other modules. */
module Prelude {

  /** Document URIs and cache keys are both plain strings in the server. */
  type Key = string

  /** How many entries a cache may hold: at least one. */
  type Capacity = n: int | 1 <= n witness 1

  datatype Option<+T> = None | Some(value: T)

  ghost predicate NoDuplicates<T>(s: seq<T>) {
    forall i, j | 0 <= i < j < |s| :: s[i] != s[j]
  }

  lemma Assoc<T>(a: seq<T>, b: seq<T>, c: seq<T>)
    ensures a + (b + c) == a + b + c
  {
  }
}
