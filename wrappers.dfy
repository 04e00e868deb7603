/** The one failure-carrying datatype of the model: JavaScript's `null` /
    thrown-and-caught error results become `None`. */
module Wrappers {

  datatype Option<+T> = None | Some(value: T)
}
