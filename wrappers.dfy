/** The optional value used for the queue's "nothing to dequeue" answer and for
    a tty pointer that may be NULL. */
module Wrappers {
  datatype Option<+T> = None | Some(value: T)
}
