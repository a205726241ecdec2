/** Optional values: the model's rendering of Python's `None` and of fields that
    are still unset (`''`) in the parse context. */
module Wrappers {

  datatype Option<+T> = None | Some(value: T)
}
