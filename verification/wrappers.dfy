/** Option, standing for a TypeScript value that may be `null` or absent. */
module Wrappers {

  datatype Option<+T> = None | Some(value: T)
}
