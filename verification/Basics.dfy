/** What every part of the model shares. */
module Basics {

  datatype Option<T> = None | Some(value: T)

  /** How a write ended: an ambiguous one was committed but reported as failed. */
  datatype Commit = Committed | RolledBack | Ambiguous

  /** Said where the solver should not look for it itself. */
  lemma Regroup<T>(a: seq<T>, b: seq<T>, c: seq<T>)
    ensures (a + b) + c == a + (b + c)
  {
  }
}
