/** The optional value used wherever the bot reads something that may be absent:
    a dictionary key of the per-user data, a train's seat availability, a parsed date. */
module Wrappers {

  datatype Option<+T> = None | Some(value: T)
}
