// The optional value shared by the tree (its abstract shape) and the
// recorder (a blob reference that may not be created).
module Wrappers {
  datatype Option<T> = None | Some(value: T)
}
