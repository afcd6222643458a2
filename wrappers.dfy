/** The optional value the service uses for "no task received yet" and "no log file". */
module Wrappers {

  datatype Option<+T> = None | Some(value: T)
}
