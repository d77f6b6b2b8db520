/** The optional value the chat bot passes around where the source uses `None`. */
module Wrappers {

  datatype Option<+T> = None | Some(value: T)
}
