/** An optional value: `None` stands for a field that is unset (`undefined`
    in the front end) or for an outcome that produces nothing. */
module Wrappers {

  datatype Option<+T> = None | Some(value: T)
}
