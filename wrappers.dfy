/** The optional value returned by the ledger's parsers (Rust's `Option`). */
module Wrappers {
  datatype Option<+T> = None | Some(value: T)
}
