/** The optional value the parsers return where a regex match may fail or a cell may be absent. */
module Wrappers {
  datatype Option<T> = None | Some(value: T)
}
