/** The Option datatype stands for the nullable references of the system:
    None is `null`, Some(v) a non-null reference to v. */
module Wrappers {

  datatype Option<+T> = None | Some(value: T)
}
