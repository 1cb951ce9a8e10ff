/** An optional value: a SQL NULL, a row that is absent, a text that does not parse. */
module Wrappers {

  datatype Option<+T> = None | Some(value: T)

}
