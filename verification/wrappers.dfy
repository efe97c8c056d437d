/** Optional values. In this model `None` stands for JavaScript's `undefined`:
    a property the parsed JSON object does not have, or a configuration value
    that was never set. */
module Wrappers {

  datatype Option<+T> = None | Some(value: T)
}
