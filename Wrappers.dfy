/** The absence value the source writes as `null`. */
module Wrappers {

  datatype Option<+T> = None | Some(value: T)
}
