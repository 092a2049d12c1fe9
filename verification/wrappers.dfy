/** Optional values: the model's stand-in for C# nullable parameters (`string?`, `DateTime?`). */
module Wrappers {

  datatype Option<+T> = None | Some(value: T)
}
