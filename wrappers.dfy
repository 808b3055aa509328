/** The nullable references of the source (`null` strings, models and dictionaries). */
module Wrappers {

  datatype Option<+T> = None | Some(value: T)
}
