/** Optional values: the model's reading of a nullable (`T | null`) or optional (`T?`) field. */
module Wrappers {

  datatype Option<+T> = None | Some(value: T)
}
