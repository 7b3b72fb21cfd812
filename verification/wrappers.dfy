/**
 * A value that may be missing, standing for Python's `None`: a track
 * slot, a message's text, keyboard or document, an expected count.
 */
module Wrappers {

  datatype Option<T> = None | Some(value: T)
}
