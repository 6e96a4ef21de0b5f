// The optional value used throughout for the repository's `T | None` and `T | null`.
module Wrappers {
  datatype Option<+T> = None | Some(value: T)
}
