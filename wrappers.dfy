/** Optional values, standing for Python's `typing.Optional` and `None`. */
module Wrappers {

  datatype Option<+T> = None | Some(value: T)

  /** A keyword argument of a library call: left at the library's own default, or given explicitly.
      `Given(None)` is an explicit `None` and differs from `Default`. */
  datatype Arg<+T> = Default | Given(value: T)
}
