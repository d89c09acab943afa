/** Optional values: the model's rendering of a catalog field that may be NULL
    (Python's None). */
module Wrappers {

  datatype Option<T> = None | Some(value: T)
}
