/** Small types shared by all modules. */
module Wrappers {
  datatype Option<+T> = None | Some(value: T)

  /** The answer of a large invariant. Asking for `Sound` keeps a proof from looking inside it. */
  datatype Verdict = Sound | Broken
}
