/** Optional values: a telemetry read that may come back empty (NULL in the kernel). */
module Wrappers {
  datatype Option<+T> = None | Some(value: T)
}
