/** A nullable value: `None` stands for a C++ `nullptr`. */
module Wrappers {
  datatype Option<+T> = None | Some(value: T)
}
