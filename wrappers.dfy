/** Optional values: a JavaScript `null`/`undefined` or a Python `None`
    on one side, a present value on the other. */
module Wrappers {

  datatype Option<+T> = None | Some(value: T)
}
