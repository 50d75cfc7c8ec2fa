/** Optional values: a JavaScript `null`/`undefined`, a Python `None`, or a form field that is absent. */
module Wrappers {

  datatype Option<+T> = None | Some(value: T)
}
