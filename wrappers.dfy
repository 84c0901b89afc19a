/** The optional value returned by the parsers that partner the renderers of this model. */
module Wrappers {
  datatype Option<+T> = None | Some(value: T)
}
